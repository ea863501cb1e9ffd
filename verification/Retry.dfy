/**
 The retry arithmetic of outbound delivery (apps/delivery/src/state.ts). Instants and delays are in
 milliseconds; the jitter factor is exact real arithmetic.
*/
module Retry {

  const MINUTE := 60_000
  const HOUR := 60 * MINUTE
  const DAY := 24 * HOUR
  const MAX_QUEUE_AGE := 5 * DAY
  const DELAY_DSN_AFTER := 4 * HOUR
  const MAX_ATTEMPTS := 42

  const RETRY_SCHEDULE: seq<int> :=
    [5 * MINUTE, 10 * MINUTE, 20 * MINUTE, 40 * MINUTE, 1 * HOUR, 2 * HOUR, 3 * HOUR, 4 * HOUR]

  /** The un-jittered delay after `attempts` failed attempts. */
  function BaseDelay(attempts: int): (d: int) {
    if attempts < 1 then RETRY_SCHEDULE[0]
    else if attempts <= 8 then RETRY_SCHEDULE[attempts - 1]
    else RETRY_SCHEDULE[7]
  }

  function Clamp(r: real): (c: real) {
    if r < 0.0 then 0.0 else if r > 1.0 then 1.0 else r
  }

  /** `round(base * (1 + 0.15 * (2r - 1)))`, rounding halves up. */
  function JitteredDelay(attempts: int, random: real): (d: int) {
    (BaseDelay(attempts) as real * (1.0 + 0.15 * (2.0 * Clamp(random) - 1.0)) + 0.5).Floor
  }

  datatype Notify = Notify(success: bool, failure: bool, delay: bool)

  datatype Outcome = Delivered | Temporary | Permanent | TransportError

  /** `attempts` includes the attempt just made. */
  datatype Snapshot = Snapshot(attempts: int, createdAt: int, notify: Notify, delayDsnSent: bool, failureDsnSent: bool)

  datatype State = Queued | Attempting | Deferred | DeliveredState | Bounced | Cancelled

  datatype AttemptResult = AttemptDelivered | AttemptDeferred | AttemptBounced | AttemptError

  datatype BounceReason = NotBounced | PermanentFailure | Expired

  datatype Dsn = DelayDsn(retryUntil: int) | FailureDsn(reason: BounceReason)

  datatype Transition = Transition(state: State, result: AttemptResult, nextAttemptAt: int, reason: BounceReason,
      dsn: seq<Dsn>)

  function ExpiresAt(r: Snapshot): (t: int) {
    r.createdAt + MAX_QUEUE_AGE
  }

  function Bounce(r: Snapshot, now: int, reason: BounceReason): (t: Transition) {
    Transition(Bounced, AttemptBounced, now, reason, if r.notify.failure && !r.failureDsnSent then [FailureDsn(reason)]
      else [])
  }

  /** The next state of a recipient after an attempt that ended at `now`. */
  function NextState(r: Snapshot, outcome: Outcome, now: int, random: real): (t: Transition) {
    if outcome == Delivered then Transition(DeliveredState, AttemptDelivered, now, NotBounced, [])
    else if outcome == Permanent then Bounce(r, now, PermanentFailure)
    else if now >= ExpiresAt(r) then Bounce(r, now, Expired)
    else
      var next := now + JitteredDelay(r.attempts, random);
      Transition(
        Deferred,
        if outcome == TransportError then AttemptError else AttemptDeferred,
        if next < ExpiresAt(r) then next else ExpiresAt(r),
        NotBounced,
        if r.notify.delay && !r.delayDsnSent && now - r.createdAt >= DELAY_DSN_AFTER then [DelayDsn(ExpiresAt(r))]
          else [])
  }

  /** The least delay the jitter can give: 85% of the base, which is a whole number of milliseconds. */
  function LeastDelay(attempts: int): (d: int) {
    BaseDelay(attempts) / 20 * 17
  }

  lemma JitterBounds(attempts: int, random: real)
    ensures 0 < LeastDelay(attempts) <= JitteredDelay(attempts, random) <= BaseDelay(attempts) / 20 * 23
  {
    var base := BaseDelay(attempts);
    var c := Clamp(random);
    assert base % 20 == 0 && base > 0;
    ScaledBounds(base, c);
  }

  lemma ScaledBounds(base: int, c: real)
    requires base > 0 && base % 20 == 0 && 0.0 <= c <= 1.0
    ensures base / 20 * 17 <= (base as real * (1.0 + 0.15 * (2.0 * c - 1.0)) + 0.5).Floor <= base / 20 * 23
  {
    var k := base / 20;
    var b := base as real;
    assert b == 20.0 * k as real;
    assert 0.0 <= b * c <= b;
    assert b * (1.0 + 0.15 * (2.0 * c - 1.0)) == 0.85 * b + 0.3 * (b * c);
    assert (k * 17) as real <= 0.85 * b + 0.3 * (b * c) <= (k * 23) as real;
  }

  /** A temporary failure is retried strictly later and never past the five-day mark, or bounced at it. */
  lemma TemporaryFailure(r: Snapshot, outcome: Outcome, now: int, random: real)
    requires outcome == Temporary || outcome == TransportError
    ensures var t := NextState(r, outcome, now, random);
      && (t.state == Bounced <==> now >= ExpiresAt(r))
      && (t.state == Deferred <==> now < ExpiresAt(r))
      && (t.state == Deferred ==> now < t.nextAttemptAt <= ExpiresAt(r))
      && (t.state == Deferred ==> t.nextAttemptAt == ExpiresAt(r) || t.nextAttemptAt >= now + LeastDelay(r.attempts))
  {
    JitterBounds(r.attempts, random);
  }

  /** Five days after it was queued, or more. */
  predicate TooOld(r: Snapshot, now: int) { now - r.createdAt >= 432_000_000 }

  /**
   What an attempt's outcome makes of the recipient: delivered, bounced for good or for age, or deferred to an
   instant within the jitter of the schedule and not past the five-day mark.
  */
  lemma OutcomeMeaning(r: Snapshot, outcome: Outcome, now: int, random: real)
    ensures var t := NextState(r, outcome, now, random);
      && (t.state == DeliveredState <==> outcome == Delivered)
      && (t.state == Bounced <==> outcome == Permanent || (outcome != Delivered && TooOld(r, now)))
      && (t.state == Deferred <==> (outcome == Temporary || outcome == TransportError) && !TooOld(r, now))
      && (t.state == Deferred ==>
            && now < t.nextAttemptAt && !TooOld(r, t.nextAttemptAt - 1)
            && (now + BaseDelay(r.attempts) / 20 * 17 <= t.nextAttemptAt <= now + BaseDelay(r.attempts) / 20 * 23
                || t.nextAttemptAt == r.createdAt + 432_000_000))
      && (t.result == AttemptDelivered <==> outcome == Delivered)
      && (t.result == AttemptBounced <==> t.state == Bounced)
      && (t.result == AttemptError <==> t.state == Deferred && outcome == TransportError)
      && (t.reason == PermanentFailure <==> outcome == Permanent)
      && (t.reason == Expired <==> t.state == Bounced && outcome != Permanent)
  {
    JitterBounds(r.attempts, random);
  }

  /**
   The notifications due: one of failure if and only if the recipient bounced, failure was asked for and none was
   sent; one of delay if and only if it was deferred four hours or more after it was queued, delay was asked
   for and none was sent.
  */
  lemma NotificationsDue(r: Snapshot, outcome: Outcome, now: int, random: real)
    ensures var t := NextState(r, outcome, now, random);
      && (t.dsn == [FailureDsn(t.reason)] <==> t.state == Bounced && r.notify.failure && !r.failureDsnSent)
      && (t.dsn == [DelayDsn(r.createdAt + 432_000_000)] <==>
            && t.state == Deferred && r.notify.delay && !r.delayDsnSent && now - r.createdAt >= 14_400_000)
      && (t.dsn != [] ==> t.dsn == [FailureDsn(t.reason)] || t.dsn == [DelayDsn(r.createdAt + 432_000_000)])
  {
  }

  /** The delays before jitter: doubling from five minutes, then hours up to four. */
  lemma ScheduleIs(attempts: int)
    ensures BaseDelay(attempts) % MINUTE == 0
    ensures var minutes := BaseDelay(attempts) / MINUTE;
      minutes == if attempts <= 1 then 5 else if attempts == 2 then 10 else if attempts == 3 then 20
        else if attempts == 4 then 40 else if attempts == 5 then 60 else if attempts >= 8 then 240
          else 60 * (attempts - 4)
  {
  }

  // --- a recipient that only ever fails temporarily ---------------------------------------------

  datatype Try = Try(outcome: Outcome, finishedAt: int, random: real)

  ghost function SnapshotAt(r: Snapshot, k: nat): Snapshot {
    r.(attempts := k + 1)
  }

  ghost function TransitionAt(r: Snapshot, tries: seq<Try>, k: nat): Transition
    requires k < |tries|
  {
    NextState(SnapshotAt(r, k), tries[k].outcome, tries[k].finishedAt, tries[k].random)
  }

  /**
   A history of attempts with no interruption: each fails temporarily, each but the last leaves the
   recipient deferred, and none starts before the instant the one before it set.
  */
  ghost predicate TemporaryHistory(r: Snapshot, tries: seq<Try>) {
    && (forall k :: 0 <= k < |tries| ==> tries[k].outcome == Temporary || tries[k].outcome == TransportError)
    && (tries != [] ==> tries[0].finishedAt >= r.createdAt)
    && (forall k :: 0 <= k < |tries| - 1 ==> TransitionAt(r, tries, k).state == Deferred)
    && (forall k :: 1 <= k < |tries| ==> tries[k].finishedAt >= TransitionAt(r, tries, k - 1).nextAttemptAt)
  }

  function LeastSum(k: nat): (s: int) {
    if k == 0 then 0 else LeastSum(k - 1) + LeastDelay(k)
  }

  lemma {:induction false} LeastSumClosed(k: nat)
    requires k >= 7
    ensures LeastSum(k) == 22_185_000 + 12_240_000 * (k - 7)
  {
    if k == 7 {
      assert LeastSum(1) == 255_000;
      assert LeastSum(2) == 765_000;
      assert LeastSum(3) == 1_785_000;
      assert LeastSum(4) == 3_825_000;
      assert LeastSum(5) == 6_885_000;
      assert LeastSum(6) == 13_005_000;
    } else {
      LeastSumClosed(k - 1);
    }
  }

  lemma {:induction false} FinishedNoSooner(r: Snapshot, tries: seq<Try>, k: nat)
    requires TemporaryHistory(r, tries) && k < |tries|
    ensures tries[k].finishedAt >= r.createdAt + LeastSum(k) || tries[k].finishedAt >= ExpiresAt(r)
  {
    hide NextState;
    if k > 0 {
      FinishedNoSooner(r, tries, k - 1);
      var was := tries[k - 1];
      TemporaryFailure(SnapshotAt(r, k - 1), was.outcome, was.finishedAt, was.random);
      assert TransitionAt(r, tries, k - 1).state == Deferred;
    }
  }

  /**
   For every jitter source a recipient that only fails temporarily is rescheduled strictly later but
   never past five days after it was queued, is bounced for age no sooner than that, and is attempted
   at most 42 times.
  */
  lemma BoundedRetries(r: Snapshot, tries: seq<Try>)
    requires TemporaryHistory(r, tries)
    ensures |tries| <= MAX_ATTEMPTS
    ensures forall k :: 0 <= k < |tries| ==>
      var t := TransitionAt(r, tries, k);
      && (t.state == Deferred ==> tries[k].finishedAt < t.nextAttemptAt <= ExpiresAt(r))
      && (t.state == Bounced <==> tries[k].finishedAt >= ExpiresAt(r))
      && (t.state == Bounced ==> t.reason == Expired && k == |tries| - 1)
      && (k == MAX_ATTEMPTS - 1 ==> t.state == Bounced)
  {
    forall k | 0 <= k < |tries|
      ensures var t := TransitionAt(r, tries, k);
        && (t.state == Deferred ==> tries[k].finishedAt < t.nextAttemptAt <= ExpiresAt(r))
        && (t.state == Bounced <==> tries[k].finishedAt >= ExpiresAt(r))
        && (t.state == Bounced ==> t.reason == Expired && k == |tries| - 1)
        && (k == MAX_ATTEMPTS - 1 ==> t.state == Bounced)
    {
      TemporaryFailure(SnapshotAt(r, k), tries[k].outcome, tries[k].finishedAt, tries[k].random);
      if k == MAX_ATTEMPTS - 1 {
        FinishedNoSooner(r, tries, k);
        LeastSumClosed(k);
      }
    }
    assert |tries| >= MAX_ATTEMPTS ==> TransitionAt(r, tries, MAX_ATTEMPTS - 1).state == Bounced;
  }

  /** The fastest history: every draw is 0 and every attempt takes no time. */
  ghost function FastestTry(r: Snapshot, k: nat): Try {
    var at := r.createdAt + LeastSum(k);
    Try(Temporary, if at < ExpiresAt(r) then at else ExpiresAt(r), 0.0)
  }

  lemma LeastDelayIsDrawn(attempts: int)
    ensures JitteredDelay(attempts, 0.0) == LeastDelay(attempts)
  {
    var base := BaseDelay(attempts);
    var b := base as real;
    assert base % 20 == 0;
    assert b * (1.0 + 0.15 * (2.0 * 0.0 - 1.0)) == 0.85 * b;
    assert 0.85 * b == (base / 20 * 17) as real;
  }

  lemma {:induction false} LeastSumGrows(j: nat, k: nat)
    requires j <= k
    ensures LeastSum(j) <= LeastSum(k)
    decreases k - j
  {
    if j < k {
      JitterBounds(j + 1, 0.0);
      LeastSumGrows(j + 1, k);
    }
  }

  lemma FastestStep(r: Snapshot, k: nat)
    requires k < MAX_ATTEMPTS - 1
    ensures var t := NextState(SnapshotAt(r, k), Temporary, FastestTry(r, k).finishedAt, 0.0);
      t.state == Deferred && FastestTry(r, k + 1).finishedAt >= t.nextAttemptAt
  {
    LeastSumClosed(MAX_ATTEMPTS - 2);
    LeastSumGrows(k, MAX_ATTEMPTS - 2);
    LeastDelayIsDrawn(k + 1);
    hide JitteredDelay;
    hide LeastDelay;
  }

  /** The bound of 42 is attained. */
  lemma FortyTwoAttained(r: Snapshot)
    ensures TemporaryHistory(r, seq(MAX_ATTEMPTS, k requires 0 <= k => FastestTry(r, k)))
  {
    hide NextState;
    hide LeastSum;
    var tries := seq(MAX_ATTEMPTS, k requires 0 <= k => FastestTry(r, k));
    forall k | 0 <= k < |tries| - 1 ensures TransitionAt(r, tries, k).state == Deferred {
      FastestStep(r, k);
    }
    forall k | 1 <= k < |tries| ensures tries[k].finishedAt >= TransitionAt(r, tries, k - 1).nextAttemptAt {
      FastestStep(r, k - 1);
    }
    assert tries[0].finishedAt >= r.createdAt by { FastestFirst(r); }
  }

  lemma FastestFirst(r: Snapshot)
    ensures FastestTry(r, 0).finishedAt == r.createdAt
  {
  }
}
