/**
 The outbound delivery tables and the steps that move them (apps/delivery/src/worker.ts, cancel.ts,
 feedback.ts). Claims, outcome commits, crashes, recoveries, cancels and asynchronous bounces of any
 number of workers interleave freely; each is one transaction on one recipient, and a batch commits
 several of them back to back. A recovery first reads which recipients are stuck and writes them later.
*/
module Delivery {
  import opened Sets
  import opened Retry

  type RecipientId = nat
  type AttemptId = nat

  datatype Recipient = Recipient(
    state: State, attempts: nat, nextAttemptAt: int, updatedAt: int,
    createdAt: int, notify: Notify, delayDsnSent: bool, failureDsnSent: bool)

  datatype Attempt = Attempt(recipient: RecipientId, startedAt: int, finishedAt: Option<int>, result: AttemptResult,
      feedback: bool)

  /**
   `live`: the attempts a running worker still owns, with the recipient as it was when claimed.
   `listed`: the recipients that running recoveries have read as stuck and not yet written.
  */
  datatype Db = Db(
    recipients: map<RecipientId, Recipient>, log: map<AttemptId, Attempt>, nextId: AttemptId,
    live: map<AttemptId, Snapshot>, listed: multiset<RecipientId>)

  datatype Event =
    | Claim(rid: RecipientId, now: int)
    | Finish(aid: AttemptId, outcome: Outcome, random: real, now: int)
    | Crash(aid: AttemptId)
    | Look(rid: RecipientId, now: int, lease: int)
    | Recover(rid: RecipientId, now: int)
    | Cancel(rid: RecipientId, now: int)
    | Feedback(rid: RecipientId, trusted: bool, final: bool, now: int)

  predicate Waiting(s: State) {
    s == Queued || s == Deferred
  }

  predicate Final(s: State) {
    s == DeliveredState || s == Bounced || s == Cancelled
  }

  predicate Open(a: Attempt) {
    a.finishedAt.None?
  }

  function SnapshotOf(r: Recipient): (s: Snapshot) {
    Snapshot(r.attempts, r.createdAt, r.notify, r.delayDsnSent, r.failureDsnSent)
  }

  function OpenOf(db: Db, rid: RecipientId): (s: set<AttemptId>) {
    set a | a in db.log && db.log[a].recipient == rid && Open(db.log[a])
  }

  /** The worker's own attempts, without the rows that feedback adds. */
  function AttemptsOf(db: Db, rid: RecipientId): (s: set<AttemptId>) {
    set a | a in db.log && db.log[a].recipient == rid && !db.log[a].feedback
  }

  predicate Due(db: Db, rid: RecipientId, now: int) {
    rid in db.recipients && Waiting(db.recipients[rid].state) && db.recipients[rid].nextAttemptAt <= now
  }

  /** begin: state, attempt count and open attempt in one commit. */
  function ClaimTx(db: Db, rid: RecipientId, now: int): (r: Db) {
    if !Due(db, rid, now) then db
    else
      var row := db.recipients[rid].(state := Attempting, attempts := db.recipients[rid].attempts + 1,
        updatedAt := now);
      Db(db.recipients[rid := row],
         db.log[db.nextId := Attempt(rid, now, None, AttemptError, false)],
         db.nextId + 1,
         db.live[db.nextId := SnapshotOf(row)],
         db.listed)
  }

  /** The outcome commit: the recipient moves only if it is still attempting; the attempt closes. */
  function FinishTx(db: Db, aid: AttemptId, outcome: Outcome, random: real, now: int): (r: Db) {
    if aid !in db.live || aid !in db.log then db
    else
      var rid := db.log[aid].recipient;
      var t := NextState(db.live[aid], outcome, now, random);
      var moved := rid in db.recipients && db.recipients[rid].state == Attempting;
      db.(recipients :=
            if moved then db.recipients[rid := db.recipients[rid].(state := t.state, nextAttemptAt := t.nextAttemptAt,
              updatedAt := now)]
            else db.recipients,
          log := db.log[aid := db.log[aid].(finishedAt := Some(now), result := if moved then t.result
            else AttemptError)],
          live := db.live - {aid})
  }

  /** Attempting, untouched since before the lease, and with no open attempt begun within it. */
  predicate Stale(db: Db, rid: RecipientId, now: int, lease: int) {
    && rid in db.recipients
    && db.recipients[rid].state == Attempting
    && db.recipients[rid].updatedAt < now - lease
    && (forall a :: a in db.log && db.log[a].recipient == rid && Open(db.log[a]) ==> db.log[a].startedAt < now - lease)
  }

  /** Recovery reads a stuck recipient into its list. */
  function LookTx(db: Db, rid: RecipientId, now: int, lease: int): (r: Db) {
    if Stale(db, rid, now, lease) then db.(listed := db.listed + multiset{rid}) else db
  }

  function Deferring(db: Db, rid: RecipientId, now: int): (r: Db)
    requires rid in db.recipients
  {
    db.(recipients := db.recipients[rid := db.recipients[rid].(state := Deferred, nextAttemptAt := now,
      updatedAt := now)],
        log := map a | a in db.log ::
          if db.log[a].recipient == rid && Open(db.log[a])
          then db.log[a].(finishedAt := Some(now), result := AttemptError) else db.log[a])
  }

  /** Recovery writes a listed recipient, if it is still attempting; what else it read is not looked at again. */
  function RecoverTx(db: Db, rid: RecipientId, now: int): (r: Db) {
    if rid !in db.listed then db
    else
      var d := db.(listed := db.listed - multiset{rid});
      if rid in db.recipients && db.recipients[rid].state == Attempting then Deferring(d, rid, now) else d
  }

  function CancelTx(db: Db, rid: RecipientId, now: int): (r: Db) {
    if rid in db.recipients && Waiting(db.recipients[rid].state)
    then db.(recipients := db.recipients[rid := db.recipients[rid].(state := Cancelled, updatedAt := now)])
    else db
  }

  /** Only a trusted, final report acts, and only on a delivered recipient; it adds a closed row. */
  function FeedbackTx(db: Db, rid: RecipientId, trusted: bool, final: bool, now: int): (r: Db) {
    if trusted && final && rid in db.recipients && db.recipients[rid].state == DeliveredState
    then db.(recipients := db.recipients[rid := db.recipients[rid].(state := Bounced)],
             log := db.log[db.nextId := Attempt(rid, now, Some(now), AttemptBounced, true)],
             nextId := db.nextId + 1)
    else db
  }

  function Step(db: Db, e: Event): (r: Db) {
    match e
    case Claim(rid, now) => ClaimTx(db, rid, now)
    case Finish(aid, outcome, random, now) => FinishTx(db, aid, outcome, random, now)
    case Crash(aid) => db.(live := db.live - {aid})
    case Look(rid, now, lease) => LookTx(db, rid, now, lease)
    case Recover(rid, now) => RecoverTx(db, rid, now)
    case Cancel(rid, now) => CancelTx(db, rid, now)
    case Feedback(rid, trusted, final, now) => FeedbackTx(db, rid, trusted, final, now)
  }

  function Run(db: Db, es: seq<Event>): (r: Db) {
    if es == [] then db else Step(Run(db, es[..|es| - 1]), es[|es| - 1])
  }

  // --- what every timely run keeps --------------------------------------------------------------

  /** An open attempt is the one its attempting recipient was last touched for. */
  ghost predicate OpenFits(db: Db, a: AttemptId)
    requires a in db.log
  {
    && db.log[a].recipient in db.recipients
    && db.recipients[db.log[a].recipient].state == Attempting
    && db.recipients[db.log[a].recipient].updatedAt == db.log[a].startedAt
  }

  ghost predicate RecipientFits(db: Db, rid: RecipientId)
    requires rid in db.recipients
  {
    && (db.recipients[rid].state == Attempting ==> exists a :: OpenOf(db, rid) == {a})
    && (db.recipients[rid].state != Attempting ==> OpenOf(db, rid) == {})
    && db.recipients[rid].attempts == |AttemptsOf(db, rid)|
  }

  /** No worker owns an attempt of the recipient. */
  ghost predicate Unowned(db: Db, rid: RecipientId) {
    forall a :: a in db.live && a in db.log ==> db.log[a].recipient != rid
  }

  /**
   What the tables promise: one open attempt when attempting and none otherwise, the count is the number
   of attempts, and the attempt a worker still owns is open.
  */
  ghost predicate Sound(db: Db) {
    && (forall a :: a in db.log ==> a < db.nextId && db.log[a].recipient in db.recipients)
    && (forall a :: a in db.log && Open(db.log[a]) ==> OpenFits(db, a))
    && (forall a :: a in db.live ==> a in db.log && Open(db.log[a]))
    && (forall rid :: rid in db.recipients ==> RecipientFits(db, rid))
  }

  /** And what a recovery has still to write, nobody owns. */
  ghost predicate Invariant(db: Db) {
    Sound(db) && forall rid :: rid in db.listed ==> Unowned(db, rid)
  }

  /**
   When recovery looks at a recipient, its live attempt, if any, began within the lease; and a recipient
   is not claimed while a recovery that read it as stuck has still to write.
  */
  ghost predicate Timely(db: Db, e: Event) {
    match e
    case Look(rid, now, lease) =>
      forall a :: a in db.live && a in db.log && db.log[a].recipient == rid ==> db.log[a].startedAt >= now - lease
    case Claim(rid, now) => Due(db, rid, now) ==> rid !in db.listed
    case _ => true
  }

  ghost predicate TimelyRun(db: Db, es: seq<Event>) {
    es != [] ==> TimelyRun(db, es[..|es| - 1]) && Timely(Run(db, es[..|es| - 1]), es[|es| - 1])
  }

  lemma Untouched(db: Db, r: Db, rid: RecipientId)
    requires rid in db.recipients && RecipientFits(db, rid)
    requires rid in r.recipients && r.recipients[rid] == db.recipients[rid]
    requires OpenOf(r, rid) == OpenOf(db, rid) && AttemptsOf(r, rid) == AttemptsOf(db, rid)
    ensures RecipientFits(r, rid)
  {
  }

  lemma ClaimSets(db: Db, rid: RecipientId, now: int, x: RecipientId)
    requires db.nextId !in db.log && Due(db, rid, now)
    ensures var r := ClaimTx(db, rid, now);
      && OpenOf(r, x) == OpenOf(db, x) + (if x == rid then {db.nextId} else {})
      && AttemptsOf(r, x) == AttemptsOf(db, x) + (if x == rid then {db.nextId} else {})
      && db.nextId !in AttemptsOf(db, x)
  {
  }

  lemma ClaimFits(db: Db, rid: RecipientId, now: int, x: RecipientId)
    requires db.nextId !in db.log && Due(db, rid, now)
    requires x in db.recipients && RecipientFits(db, x)
    ensures RecipientFits(ClaimTx(db, rid, now), x)
  {
    var r := ClaimTx(db, rid, now);
    hide OpenOf;
    hide AttemptsOf;
    ClaimSets(db, rid, now, x);
    if x == rid {
      assert OpenOf(r, rid) == {db.nextId};
      assert |AttemptsOf(r, rid)| == |AttemptsOf(db, rid)| + 1;
    } else {
      assert OpenOf(r, x) == OpenOf(db, x) && AttemptsOf(r, x) == AttemptsOf(db, x);
      Untouched(db, r, x);
    }
  }

  lemma ClaimKeeps(db: Db, rid: RecipientId, now: int)
    requires Invariant(db) && Due(db, rid, now) && rid !in db.listed
    ensures Invariant(ClaimTx(db, rid, now))
  {
    hide RecipientFits;
    var r := ClaimTx(db, rid, now);
    forall a | a in r.log && Open(r.log[a]) ensures OpenFits(r, a) {
      if a != db.nextId { assert OpenFits(db, a); }
    }
    forall x | x in r.recipients ensures RecipientFits(r, x) {
      ClaimFits(db, rid, now, x);
    }
    forall x | x in r.listed ensures Unowned(r, x) {
      assert Unowned(db, x);
    }
  }

  /** The attempt a live worker holds is its recipient's one open attempt. */
  lemma LiveIsTheOpenOne(db: Db, aid: AttemptId)
    requires Invariant(db) && aid in db.live
    ensures aid in db.log
    ensures var rid := db.log[aid].recipient;
      rid in db.recipients && db.recipients[rid].state == Attempting && OpenOf(db, rid) == {aid}
  {
    assert OpenFits(db, aid);
    var rid := db.log[aid].recipient;
    assert aid in OpenOf(db, rid);
    var a :| OpenOf(db, rid) == {a};
  }

  /**
   Each commit's guarded update hits its own attempt: the recipient is still attempting under exactly
   this attempt, takes the outcome's state, and has no open attempt afterwards.
  */
  lemma FinishHitsItsOwn(db: Db, aid: AttemptId, outcome: Outcome, random: real, now: int)
    requires Invariant(db) && aid in db.live
    ensures var r := FinishTx(db, aid, outcome, random, now);
      && Invariant(r)
      && var rid := db.log[aid].recipient;
         var t := NextState(db.live[aid], outcome, now, random);
         && db.recipients[rid].state == Attempting && OpenOf(db, rid) == {aid}
         && r.recipients[rid].state == t.state != Attempting
         && OpenOf(r, rid) == {}
         && r.log[aid].result == t.result
  {
    LiveIsTheOpenOne(db, aid);
    FinishKeeps(db, aid, outcome, random, now);
    hide NextState;
    NextStateLeaves(db.live[aid], outcome, now, random);
    FinishSets(db, aid, outcome, random, now, db.log[aid].recipient);
    hide Sound;
  }

  /** The notifications a step sends, each for its recipient: an outcome's, if it moved the recipient. */
  function StepIntents(db: Db, e: Event): (r: seq<(RecipientId, Dsn)>) {
    match e
    case Finish(aid, outcome, random, now) =>
      if aid in db.live && aid in db.log && db.log[aid].recipient in db.recipients
        && db.recipients[db.log[aid].recipient].state == Attempting
      then Addressed(db.log[aid].recipient, NextState(db.live[aid], outcome, now, random).dsn)
      else []
    case _ => []
  }

  function Addressed(rid: RecipientId, ds: seq<Dsn>): (r: seq<(RecipientId, Dsn)>) {
    seq(|ds|, i requires 0 <= i < |ds| => (rid, ds[i]))
  }

  function Intents(db: Db, es: seq<Event>): (r: seq<(RecipientId, Dsn)>) {
    if es == [] then []
    else
      var n := |es| - 1;
      Intents(db, es[..n]) + StepIntents(Run(db, es[..n]), es[n])
  }

  /**
   What a commit makes of the recipient and its attempt: delivered, bounced or deferred as the outcome and the
   age say, with the logged result to match.
  */
  lemma FinishOutcome(db: Db, aid: AttemptId, outcome: Outcome, random: real, now: int)
    requires Invariant(db) && aid in db.live
    ensures aid in db.log && db.log[aid].recipient in db.recipients
    ensures var r, rid, s := FinishTx(db, aid, outcome, random, now), db.log[aid].recipient, db.live[aid];
      && rid in r.recipients && aid in r.log
      && var row := r.recipients[rid];
         && (row.state == DeliveredState <==> outcome == Delivered)
         && (row.state == Bounced <==> outcome == Permanent || (outcome != Delivered && TooOld(s, now)))
         && (row.state == Deferred <==> (outcome == Temporary || outcome == TransportError) && !TooOld(s, now))
         && (row.state == Deferred ==>
               now < row.nextAttemptAt
               && (now + BaseDelay(s.attempts) / 20 * 17 <= row.nextAttemptAt <= now + BaseDelay(s.attempts) / 20 * 23
                   || row.nextAttemptAt == s.createdAt + 432_000_000))
         && (r.log[aid].result == AttemptDelivered <==> row.state == DeliveredState)
         && (r.log[aid].result == AttemptBounced <==> row.state == Bounced)
         && (r.log[aid].result == AttemptError <==> row.state == Deferred && outcome == TransportError)
         && r.log[aid].finishedAt == Some(now)
  {
    LiveIsTheOpenOne(db, aid);
    OutcomeMeaning(db.live[aid], outcome, now, random);
    hide NextState, Invariant, BaseDelay;
  }

  /**
   The notification a commit sends: failure if and only if the recipient bounced, failure was asked for and none
   was sent before; delay if and only if it was deferred four hours or more after it was queued and likewise.
  */
  lemma FinishNotifies(db: Db, aid: AttemptId, outcome: Outcome, random: real, now: int)
    requires Invariant(db) && aid in db.live
    ensures aid in db.log && db.log[aid].recipient in db.recipients
    ensures var rid, s := db.log[aid].recipient, db.live[aid];
      var sent := StepIntents(db, Finish(aid, outcome, random, now));
      var state := FinishTx(db, aid, outcome, random, now).recipients[rid].state;
      && |sent| <= 1 && (sent != [] ==> sent[0].0 == rid)
      && (sent != [] && sent[0].1.FailureDsn? <==> state == Bounced && s.notify.failure && !s.failureDsnSent)
      && (sent != [] && sent[0].1.DelayDsn? <==>
            && state == Deferred && s.notify.delay && !s.delayDsnSent && now - s.createdAt >= 14_400_000)
  {
    LiveIsTheOpenOne(db, aid);
    NotificationsDue(db.live[aid], outcome, now, random);
    OutcomeMeaning(db.live[aid], outcome, now, random);
    hide NextState, Invariant, BaseDelay;
  }

  lemma FinishKeeps(db: Db, aid: AttemptId, outcome: Outcome, random: real, now: int)
    requires Invariant(db) && Owns(db, aid)
    ensures Invariant(FinishTx(db, aid, outcome, random, now))
  {
    var r := FinishTx(db, aid, outcome, random, now);
    FinishLog(db, aid, outcome, random, now);
    FinishRecipients(db, aid, outcome, random, now);
    hide *;
    Assembled(r);
  }

  lemma Assembled(r: Db)
    requires forall x :: x in r.recipients ==> RecipientFits(r, x)
    requires forall x :: x in r.listed ==> Unowned(r, x)
    requires forall a :: a in r.log && Open(r.log[a]) ==> OpenFits(r, a)
    requires forall a :: a in r.log ==> a < r.nextId && r.log[a].recipient in r.recipients
    requires forall a :: a in r.live ==> a in r.log && Open(r.log[a])
    ensures Invariant(r)
  {
  }

  /** The attempt is its recipient's one open attempt, and the recipient is attempting. */
  ghost predicate Owns(db: Db, aid: AttemptId) {
    && aid in db.live && aid in db.log
    && var rid := db.log[aid].recipient;
       rid in db.recipients && db.recipients[rid].state == Attempting && OpenOf(db, rid) == {aid}
  }

  lemma FinishRecipients(db: Db, aid: AttemptId, outcome: Outcome, random: real, now: int)
    requires Invariant(db) && Owns(db, aid)
    ensures var r := FinishTx(db, aid, outcome, random, now);
      && (forall x :: x in r.recipients ==> RecipientFits(r, x))
      && (forall x :: x in r.listed ==> Unowned(r, x))
  {
    var r := FinishTx(db, aid, outcome, random, now);
    FinishOthers(db, aid, outcome, random, now);
    hide FinishTx, RecipientFits, OpenFits, Unowned, Open;
    forall x | x in r.recipients ensures RecipientFits(r, x) {
      FinishFits(db, aid, outcome, random, now, x);
    }
    forall x | x in r.listed ensures Unowned(r, x) {
      FinishUnowned(db, aid, outcome, random, now, x);
    }
  }

  lemma FinishLog(db: Db, aid: AttemptId, outcome: Outcome, random: real, now: int)
    requires Invariant(db) && Owns(db, aid)
    ensures var r := FinishTx(db, aid, outcome, random, now);
      && (forall a :: a in r.log && Open(r.log[a]) ==> OpenFits(r, a))
      && (forall a :: a in r.log ==> a < r.nextId && r.log[a].recipient in r.recipients)
      && (forall a :: a in r.live ==> a in r.log && Open(r.log[a]))
  {
    var r := FinishTx(db, aid, outcome, random, now);
    FinishOthers(db, aid, outcome, random, now);
    hide FinishTx, RecipientFits, OpenFits, Unowned, Open;
    forall a | a in r.log && Open(r.log[a]) ensures OpenFits(r, a) {
      FinishOpenFits(db, aid, outcome, random, now, a);
    }
  }

  lemma FinishUnowned(db: Db, aid: AttemptId, outcome: Outcome, random: real, now: int, x: RecipientId)
    requires aid in db.live && aid in db.log && Unowned(db, x)
    ensures Unowned(FinishTx(db, aid, outcome, random, now), x)
  {
    FinishOthers(db, aid, outcome, random, now);
    hide FinishTx;
  }

  /** A commit touches its own attempt and that one's recipient only. */
  lemma FinishOthers(db: Db, aid: AttemptId, outcome: Outcome, random: real, now: int)
    requires aid in db.live && aid in db.log
    ensures var r := FinishTx(db, aid, outcome, random, now);
      && r.recipients.Keys == db.recipients.Keys && r.log.Keys == db.log.Keys && r.nextId == db.nextId
         && r.listed == db.listed
      && r.live == db.live - {aid} && !Open(r.log[aid])
      && forall a :: a in db.log ==> r.log[a].recipient == db.log[a].recipient && (a != aid ==> r.log[a] == db.log[a])
  {
    hide NextState;
  }

  lemma FinishOpenFits(db: Db, aid: AttemptId, outcome: Outcome, random: real, now: int, a: AttemptId)
    requires Owns(db, aid)
    requires var r := FinishTx(db, aid, outcome, random, now); a in r.log && a in db.log && Open(r.log[a])
    requires Open(db.log[a]) ==> OpenFits(db, a)
    ensures OpenFits(FinishTx(db, aid, outcome, random, now), a)
  {
    hide NextState;
    assert a in OpenOf(db, db.log[a].recipient);
  }

  lemma FinishSets(db: Db, aid: AttemptId, outcome: Outcome, random: real, now: int, x: RecipientId)
    requires aid in db.live && aid in db.log
    ensures var r := FinishTx(db, aid, outcome, random, now);
      OpenOf(r, x) == OpenOf(db, x) - {aid} && AttemptsOf(r, x) == AttemptsOf(db, x)
  {
    hide NextState;
  }

  lemma FinishFits(db: Db, aid: AttemptId, outcome: Outcome, random: real, now: int, x: RecipientId)
    requires Owns(db, aid) && x in db.recipients && RecipientFits(db, x)
    ensures RecipientFits(FinishTx(db, aid, outcome, random, now), x)
  {
    hide NextState;
    NextStateLeaves(db.live[aid], outcome, now, random);
    FinishSets(db, aid, outcome, random, now, x);
    var r := FinishTx(db, aid, outcome, random, now);
    if x != db.log[aid].recipient {
      assert aid !in OpenOf(db, x);
      hide OpenOf, AttemptsOf;
      assert OpenOf(r, x) == OpenOf(db, x);
      Untouched(db, r, x);
    }
  }

  lemma NextStateLeaves(s: Snapshot, outcome: Outcome, now: int, random: real)
    ensures NextState(s, outcome, now, random).state in {DeliveredState, Deferred, Bounced}
  {
  }

  lemma DeferringSets(db: Db, rid: RecipientId, now: int, x: RecipientId)
    requires rid in db.recipients
    ensures var r := Deferring(db, rid, now);
      && AttemptsOf(r, x) == AttemptsOf(db, x)
      && OpenOf(r, x) == if x == rid then {} else OpenOf(db, x)
  {
  }

  lemma DeferringFits(db: Db, d: Db, rid: RecipientId, now: int, x: RecipientId)
    requires d == db.(listed := d.listed) && rid in db.recipients && x in db.recipients && RecipientFits(db, x)
    ensures RecipientFits(Deferring(d, rid, now), x)
  {
    hide OpenOf, AttemptsOf;
    DeferringSets(d, rid, now, x);
    SameLog(db, d, x);
  }

  /** Whatever happened since it was listed, writing a listed recipient is safe. */
  lemma RecoverKeeps(db: Db, rid: RecipientId, now: int)
    requires Invariant(db)
    ensures Invariant(RecoverTx(db, rid, now))
  {
    hide RecipientFits;
    var r := RecoverTx(db, rid, now);
    if rid in db.listed && rid in db.recipients && db.recipients[rid].state == Attempting {
      assert Unowned(db, rid);
      forall x | x in r.recipients ensures RecipientFits(r, x) {
        DeferringFits(db, db.(listed := db.listed - multiset{rid}), rid, now, x);
      }
      forall a | a in r.log && Open(r.log[a]) ensures OpenFits(r, a) {
        assert OpenFits(db, a);
      }
      forall x | x in r.listed ensures Unowned(r, x) {
        assert x in db.listed;
      }
    } else {
      SameTables(db, r);
    }
  }

  /** Only the lists of running recoveries differ. */
  lemma SameSound(db: Db, r: Db)
    requires Sound(db) && r == db.(listed := r.listed)
    ensures Sound(r)
  {
    forall x | x in r.recipients ensures RecipientFits(r, x) {
      SameLog(db, r, x);
      assert RecipientFits(db, x);
    }
    forall a | a in r.log && Open(r.log[a]) ensures OpenFits(r, a) {
      assert OpenFits(db, a);
    }
  }

  lemma SameTables(db: Db, r: Db)
    requires Invariant(db) && r == db.(listed := r.listed) && forall rid :: rid in r.listed ==> Unowned(db, rid)
    ensures Invariant(r)
  {
    hide Sound;
    SameSound(db, r);
    forall x | x in r.listed ensures Unowned(r, x) {
      assert Unowned(db, x);
    }
  }

  lemma LookKeeps(db: Db, rid: RecipientId, now: int, lease: int)
    requires Invariant(db) && (Stale(db, rid, now, lease) ==> Unowned(db, rid))
    ensures Invariant(LookTx(db, rid, now, lease))
  {
    SameTables(db, LookTx(db, rid, now, lease));
  }

  lemma LookTimely(db: Db, rid: RecipientId, now: int, lease: int)
    requires Invariant(db) && Timely(db, Look(rid, now, lease)) && Stale(db, rid, now, lease)
    ensures Unowned(db, rid)
  {
    forall a | a in db.live && a in db.log ensures db.log[a].recipient != rid {
      assert Open(db.log[a]);
    }
  }

  lemma SameLog(db: Db, r: Db, x: RecipientId)
    requires r.log == db.log
    ensures OpenOf(r, x) == OpenOf(db, x) && AttemptsOf(r, x) == AttemptsOf(db, x)
  {
  }

  lemma FeedbackSets(db: Db, rid: RecipientId, trusted: bool, final: bool, now: int, x: RecipientId)
    requires db.nextId !in db.log
    ensures var r := FeedbackTx(db, rid, trusted, final, now);
      OpenOf(r, x) == OpenOf(db, x) && AttemptsOf(r, x) == AttemptsOf(db, x)
  {
  }

  lemma CancelFits(db: Db, rid: RecipientId, now: int, x: RecipientId)
    requires x in db.recipients && RecipientFits(db, x)
    ensures RecipientFits(CancelTx(db, rid, now), x)
  {
    hide OpenOf, AttemptsOf;
    SameLog(db, CancelTx(db, rid, now), x);
  }

  lemma CancelKeeps(db: Db, rid: RecipientId, now: int)
    requires Invariant(db)
    ensures Invariant(CancelTx(db, rid, now))
  {
    hide RecipientFits;
    var r := CancelTx(db, rid, now);
    forall x | x in r.recipients ensures RecipientFits(r, x) {
      CancelFits(db, rid, now, x);
    }
    forall a | a in r.log && Open(r.log[a]) ensures OpenFits(r, a) {
      assert OpenFits(db, a);
    }
    forall x | x in r.listed ensures Unowned(r, x) {
      assert Unowned(db, x);
    }
  }

  lemma FeedbackFits(db: Db, rid: RecipientId, trusted: bool, final: bool, now: int, x: RecipientId)
    requires x in db.recipients && RecipientFits(db, x) && db.nextId !in db.log
    ensures RecipientFits(FeedbackTx(db, rid, trusted, final, now), x)
  {
    hide OpenOf, AttemptsOf;
    FeedbackSets(db, rid, trusted, final, now, x);
  }

  lemma FeedbackKeeps(db: Db, rid: RecipientId, trusted: bool, final: bool, now: int)
    requires Invariant(db)
    ensures Invariant(FeedbackTx(db, rid, trusted, final, now))
  {
    hide RecipientFits;
    var r := FeedbackTx(db, rid, trusted, final, now);
    forall x | x in r.recipients ensures RecipientFits(r, x) {
      FeedbackFits(db, rid, trusted, final, now, x);
    }
    forall a | a in r.log && Open(r.log[a]) ensures OpenFits(r, a) {
      assert OpenFits(db, a);
    }
    forall x | x in r.listed ensures Unowned(r, x) {
      assert Unowned(db, x);
    }
  }

  lemma CrashKeeps(db: Db, aid: AttemptId)
    requires Invariant(db)
    ensures Invariant(Step(db, Crash(aid)))
  {
    var r := Step(db, Crash(aid));
    forall x | x in r.recipients ensures RecipientFits(r, x) {
      SameLog(db, r, x);
      Untouched(db, r, x);
    }
    forall a | a in r.log && Open(r.log[a]) ensures OpenFits(r, a) {
      assert OpenFits(db, a);
    }
    forall x | x in r.listed ensures Unowned(r, x) {
      assert Unowned(db, x);
    }
  }

  lemma StepKeeps(db: Db, e: Event)
    requires Invariant(db) && Timely(db, e)
    ensures Invariant(Step(db, e))
  {
    match e
    case Claim(rid, now) => if Due(db, rid, now) { ClaimKeeps(db, rid, now); }
    case Finish(aid, outcome, random, now) => if aid in db.live { FinishHitsItsOwn(db, aid, outcome, random, now); }
    case Crash(aid) => CrashKeeps(db, aid);
    case Look(rid, now, lease) =>
      if Stale(db, rid, now, lease) { LookTimely(db, rid, now, lease); }
      LookKeeps(db, rid, now, lease);
    case Recover(rid, now) => RecoverKeeps(db, rid, now);
    case Cancel(rid, now) => CancelKeeps(db, rid, now);
    case Feedback(rid, trusted, final, now) => FeedbackKeeps(db, rid, trusted, final, now);
  }

  /**
   If live attempts finish within the lease, and no recipient is claimed between a recovery's reading
   it as stuck and its writing it, then after every interleaving of claims, commits, crashes, looks,
   recoveries, cancels and asynchronous bounces a recipient has exactly one open attempt when attempting
   and none otherwise, and its count is its number of attempts.
  */
  lemma {:induction false} RunKeeps(db: Db, es: seq<Event>)
    requires Invariant(db) && TimelyRun(db, es)
    ensures Invariant(Run(db, es))
  {
    if es != [] {
      RunKeeps(db, es[..|es| - 1]);
      StepKeeps(Run(db, es[..|es| - 1]), es[|es| - 1]);
    }
  }

  // --- exactly when a step is safe --------------------------------------------------------------

  /** Whatever timely events follow, the tables stay sound. */
  ghost predicate SafeFrom(db: Db) {
    forall es :: TimelyRun(db, es) ==> Sound(Run(db, es))
  }

  lemma InvariantIsSafe(db: Db)
    requires Invariant(db)
    ensures SafeFrom(db)
  {
    forall es | TimelyRun(db, es) ensures Sound(Run(db, es)) {
      RunKeeps(db, es);
    }
  }

  /** A recovery that writes a recipient whose attempt a worker still owns closes that attempt under it. */
  lemma RecoverBreaks(db: Db, rid: RecipientId, now: int)
    requires Sound(db) && rid in db.listed && !Unowned(db, rid)
    ensures !Sound(RecoverTx(db, rid, now))
  {
    var a :| a in db.live && a in db.log && db.log[a].recipient == rid;
    assert OpenFits(db, a);
    var r := RecoverTx(db, rid, now);
    assert a in r.live && !Open(r.log[a]);
  }

  /** After that, one timely step is enough to break the tables. */
  lemma OwnedIsUnsafe(db: Db, rid: RecipientId, now: int)
    requires Sound(db) && rid in db.listed && !Unowned(db, rid)
    ensures !SafeFrom(db)
  {
    RecoverBreaks(db, rid, now);
    hide Sound, RecoverTx;
    var es := [Recover(rid, now)];
    assert es[..0] == [];
    assert TimelyRun(db, []) && Run(db, []) == db;
    assert TimelyRun(db, es) && Run(db, es) == RecoverTx(db, rid, now);
  }

  /** A look leaves every timely future sound if and only if it finds nothing stuck, or nobody owns what it lists. */
  lemma LookExact(db: Db, rid: RecipientId, now: int, lease: int)
    requires Invariant(db)
    ensures SafeFrom(Step(db, Look(rid, now, lease))) <==> (Stale(db, rid, now, lease) ==> Unowned(db, rid))
  {
    hide SafeFrom, Stale;
    var r := LookTx(db, rid, now, lease);
    if Stale(db, rid, now, lease) ==> Unowned(db, rid) {
      LookKeeps(db, rid, now, lease);
      InvariantIsSafe(r);
    } else {
      LookListsIt(db, rid, now, lease);
      OwnedIsUnsafe(r, rid, now);
    }
  }

  lemma LookListsIt(db: Db, rid: RecipientId, now: int, lease: int)
    requires Invariant(db) && Stale(db, rid, now, lease) && !Unowned(db, rid)
    ensures var r := LookTx(db, rid, now, lease);
      Sound(r) && rid in r.listed && !Unowned(r, rid)
  {
    SameSound(db, LookTx(db, rid, now, lease));
  }

  /**
   A claim leaves every timely future sound if and only if it does nothing, or no recovery has still to write
   its recipient.
  */
  lemma ClaimExact(db: Db, rid: RecipientId, now: int)
    requires Invariant(db)
    ensures SafeFrom(Step(db, Claim(rid, now))) <==> (Due(db, rid, now) ==> rid !in db.listed)
  {
    hide SafeFrom, Due;
    var r := ClaimTx(db, rid, now);
    if Due(db, rid, now) ==> rid !in db.listed {
      if Due(db, rid, now) { ClaimKeeps(db, rid, now); }
      assert !Due(db, rid, now) ==> r == db;
      InvariantIsSafe(r);
    } else {
      ClaimOwns(db, rid, now);
      OwnedIsUnsafe(r, rid, now);
    }
  }

  lemma ClaimOwns(db: Db, rid: RecipientId, now: int)
    requires Sound(db) && Due(db, rid, now) && rid in db.listed
    ensures var r := ClaimTx(db, rid, now);
      Sound(r) && rid in r.listed && !Unowned(r, rid)
  {
    hide RecipientFits;
    var r := ClaimTx(db, rid, now);
    forall a | a in r.log && Open(r.log[a]) ensures OpenFits(r, a) {
      if a != db.nextId { assert OpenFits(db, a); }
    }
    forall x | x in r.recipients ensures RecipientFits(r, x) {
      ClaimFits(db, rid, now, x);
    }
    assert db.nextId in r.live && r.log[db.nextId].recipient == rid;
  }

  // --- one step after another -------------------------------------------------------------------

  /** Waiting, and due. */
  predicate WaitsAt(r: Recipient, now: int) {
    (r.state == Queued || r.state == Deferred) && r.nextAttemptAt <= now
  }

  /**
   From claim to commit: a recipient that waits and is due is attempted once more, and the outcome is judged by
   its own age, notifications and number of attempts as they stood at the claim.
  */
  lemma ClaimThenFinish(db: Db, rid: RecipientId, now: int, outcome: Outcome, random: real, later: int)
    requires Invariant(db) && rid !in db.listed && rid in db.recipients && WaitsAt(db.recipients[rid], now)
    ensures
      var was, aid := db.recipients[rid], db.nextId;
      var claimed := Step(db, Claim(rid, now));
      var finish := Finish(aid, outcome, random, later);
      var done, sent := Step(claimed, finish), StepIntents(claimed, finish);
      && claimed.recipients[rid].state == Attempting && aid in claimed.live
      && aid in done.log && done.log[aid].startedAt == now && done.log[aid].finishedAt == Some(later)
      && done.recipients[rid].attempts == was.attempts + 1
      && (done.recipients[rid].state == DeliveredState <==> outcome == Delivered)
      && (done.recipients[rid].state == Bounced <==>
         outcome == Permanent || (outcome != Delivered && later - was.createdAt >= 432_000_000))
      && (done.recipients[rid].state == Deferred ==>
            var base := BaseDelay(was.attempts + 1);
            later + base / 20 * 17 <= done.recipients[rid].nextAttemptAt <= later + base / 20 * 23
            || done.recipients[rid].nextAttemptAt == was.createdAt + 432_000_000)
      && (sent != [] && sent[0].1.FailureDsn? <==>
            done.recipients[rid].state == Bounced && was.notify.failure && !was.failureDsnSent)
  {
    ClaimKeeps(db, rid, now);
    var claimed := ClaimTx(db, rid, now);
    hide Invariant, NextState, BaseDelay;
    FinishOutcome(claimed, db.nextId, outcome, random, later);
    FinishNotifies(claimed, db.nextId, outcome, random, later);
  }

  /** Claim and cancel exclude each other: whichever comes first is all that happens. */
  lemma CancelOrClaim(db: Db, rid: RecipientId, now: int, later: int)
    requires rid in db.recipients
    ensures
      var was, cancelled := db.recipients[rid], Step(db, Cancel(rid, now));
      && (was.state == Queued || was.state == Deferred ==>
            cancelled.recipients[rid].state == Cancelled && Step(cancelled, Claim(rid, later)) == cancelled)
      && (was.state != Queued && was.state != Deferred ==> cancelled == db)
      && (WaitsAt(was, now) ==>
            var claimed := Step(db, Claim(rid, now));
            claimed.recipients[rid].state == Attempting && Step(claimed, Cancel(rid, later)) == claimed)
  {
  }

  lemma StaleExact(db: Db, rid: RecipientId, now: int, lease: int)
    requires Invariant(db) && rid in db.recipients
    ensures Stale(db, rid, now, lease) <==>
            db.recipients[rid].state == Attempting && db.recipients[rid].updatedAt < now - lease
  {
    forall a | a in db.log && db.log[a].recipient == rid && Open(db.log[a])
      ensures db.log[a].startedAt == db.recipients[rid].updatedAt
    {
      assert OpenFits(db, a);
    }
  }

  /**
   No recipient stays with a worker that is gone: attempting and untouched past the lease it is listed, and written
   it waits again, due at once, with its attempt closed and the count as it was. Nothing else is listed or changed.
  */
  lemma StuckIsRecovered(db: Db, rid: RecipientId, now: int, lease: int, later: int)
    requires Invariant(db) && rid in db.recipients && rid !in db.listed
    ensures
      var was, looked := db.recipients[rid], Step(db, Look(rid, now, lease));
      var r := Step(looked, Recover(rid, later));
      && (rid in looked.listed <==> was.state == Attempting && was.updatedAt < now - lease)
      && (rid in looked.listed ==>
            && r.recipients[rid].state == Deferred && WaitsAt(r.recipients[rid], later)
            && r.recipients[rid].attempts == was.attempts && OpenOf(r, rid) == {}
            && forall a :: a in OpenOf(db, rid) ==>
                 a in r.log && r.log[a].finishedAt == Some(later) && r.log[a].result == AttemptError)
      && (rid !in looked.listed ==> r == db)
      && forall x :: x in db.recipients && x != rid ==> x in r.recipients && r.recipients[x] == db.recipients[x]
  {
    StaleExact(db, rid, now, lease);
    hide Invariant, Stale;
  }

  /**
   A report moves a delivered recipient to bounced if and only if it is trusted and final, logs it as its own closed
   row, and acts once.
  */
  lemma ReportActsOnce(db: Db, rid: RecipientId, trusted: bool, final: bool, now: int, later: int)
    requires rid in db.recipients && db.nextId !in db.log
    ensures
      var was, r := db.recipients[rid], Step(db, Feedback(rid, trusted, final, now));
      && (r.recipients[rid].state != was.state <==> trusted && final && was.state == DeliveredState)
      && (r.recipients[rid].state != was.state ==>
            && r.recipients[rid].state == Bounced && db.nextId in r.log
            && r.log[db.nextId].recipient == rid && !Open(r.log[db.nextId]) && r.log[db.nextId].feedback)
      && Step(r, Feedback(rid, trusted, final, later)) == r
      && OpenOf(r, rid) == OpenOf(db, rid)
  {
    var r := Step(db, Feedback(rid, trusted, final, now));
    assert OpenOf(r, rid) == OpenOf(db, rid);
  }

  // --- final states -----------------------------------------------------------------------------

  /** Where a recipient in a final state may still go. */
  predicate FinalMove(before: State, after: State) {
    after == before || (before == DeliveredState && after == Bounced)
  }

  /** Only a trusted, final report about the recipient itself moves it. */
  predicate Reports(e: Event, rid: RecipientId) {
    e.Feedback? && e.rid == rid && e.trusted && e.final
  }

  lemma FinalStep(db: Db, e: Event, rid: RecipientId)
    requires rid in db.recipients && Final(db.recipients[rid].state)
    ensures var r := Step(db, e);
      && rid in r.recipients && FinalMove(db.recipients[rid].state, r.recipients[rid].state)
      && (r.recipients[rid].state != db.recipients[rid].state ==> Reports(e, rid))
  {
    hide NextState;
  }

  /**
   Final states stay final in every run, timely or not, except delivered to bounced, and that only by a
   trusted, final report about the recipient.
  */
  lemma {:induction false} FinalStaysFinal(db: Db, es: seq<Event>, rid: RecipientId)
    requires rid in db.recipients && Final(db.recipients[rid].state)
    ensures rid in Run(db, es).recipients
    ensures FinalMove(db.recipients[rid].state, Run(db, es).recipients[rid].state)
    ensures Run(db, es).recipients[rid].state != db.recipients[rid].state ==> exists e :: e in es && Reports(e, rid)
  {
    if es != [] {
      hide Step;
      var n := |es| - 1;
      FinalStaysFinal(db, es[..n], rid);
      FinalStep(Run(db, es[..n]), es[n], rid);
      assert es[n] in es && forall e :: e in es[..n] ==> e in es;
    }
  }

  // --- when the lease is outlived ---------------------------------------------------------------

  /** One queued recipient, never attempted. */
  function OneQueued(r: Recipient): (db: Db) {
    Db(map[0 := r], map[], 0, map[], multiset{})
  }

  lemma RunCons(db: Db, e: Event, es: seq<Event>)
    ensures Run(db, [e] + es) == Run(Step(db, e), es)
  {
    hide Step;
    if es == [] {
      assert [e] + es == [e] && [e][..0] == [];
      assert Run(db, [e]) == Step(Run(db, []), e);
    } else {
      var n := |es| - 1;
      assert ([e] + es)[..n + 1] == [e] + es[..n];
      RunCons(db, e, es[..n]);
    }
  }

  lemma {:induction false} TimelyCons(db: Db, e: Event, es: seq<Event>)
    ensures TimelyRun(db, [e] + es) <==> Timely(db, e) && TimelyRun(Step(db, e), es)
  {
    hide Step, Timely;
    if es == [] {
      assert [e] + es == [e] && [e][..0] == [];
      assert TimelyRun(db, [e]) <==> TimelyRun(db, []) && Timely(Run(db, []), e);
    } else {
      var n := |es| - 1;
      assert ([e] + es)[..n + 1] == [e] + es[..n];
      TimelyCons(db, e, es[..n]);
      RunCons(db, e, es[..n]);
    }
  }

  lemma OneQueuedIsFine(r: Recipient)
    requires r.state == Queued && r.attempts == 0
    ensures Invariant(OneQueued(r))
  {
    assert OpenOf(OneQueued(r), 0) == {} && AttemptsOf(OneQueued(r), 0) == {};
  }

  /** The one recipient, in its first attempt since time 0. */
  function FirstAttempt(r: Recipient): (db: Db) {
    var row := r.(state := Attempting, attempts := r.attempts + 1, updatedAt := 0);
    Db(map[0 := row], map[0 := Attempt(0, 0, None, AttemptError, false)], 1, map[0 := SnapshotOf(row)], multiset{})
  }

  /** Recovered at `now` from the first attempt, and claimed again; `live` and `listed` as they then are. */
  function SecondAttempt(r: Recipient, now: int, live: map<AttemptId, Snapshot>,
          listed: multiset<RecipientId>): (db: Db) {
    var row := r.(state := Attempting, attempts := r.attempts + 2, nextAttemptAt := now, updatedAt := now);
    Db(map[0 := row], map[0 := Attempt(0, 0, Some(now), AttemptError, false),
      1 := Attempt(0, now, None, AttemptError, false)], 2,
       live[1 := SnapshotOf(row)], listed)
  }

  lemma ClaimsFirst(r: Recipient)
    requires r.state == Queued && r.nextAttemptAt <= 0
    ensures Step(OneQueued(r), Claim(0, 0)) == FirstAttempt(r)
  {
    var a, b := Step(OneQueued(r), Claim(0, 0)), FirstAttempt(r);
    assert a.recipients == b.recipients && a.log == b.log && a.live == b.live;
  }

  lemma StaleFirst(db: Db, r: Recipient, lease: nat)
    requires db == FirstAttempt(r).(live := db.live, listed := db.listed)
    ensures Step(db, Look(0, lease + 1, lease)) == db.(listed := db.listed + multiset{0})
  {
    assert Stale(db, 0, lease + 1, lease);
  }

  lemma RecoverThenClaim(db: Db, r: Recipient, now: nat)
    requires db == FirstAttempt(r).(live := db.live, listed := db.listed) && 0 in db.listed && 1 !in db.live
    ensures Step(Step(db, Recover(0, now)), Claim(0, now)) == SecondAttempt(r, now, db.live, db.listed - multiset{0})
  {
    var d := Step(db, Recover(0, now));
    assert d.log == map[0 := Attempt(0, 0, Some(now), AttemptError, false)];
    assert d.recipients == map[0 := r.(state := Deferred, attempts := r.attempts + 1, nextAttemptAt := now,
      updatedAt := now)];
    var a, b := Step(d, Claim(0, now)), SecondAttempt(r, now, db.live, db.listed - multiset{0});
    assert a.recipients == b.recipients && a.log == b.log && a.live == b.live && a.listed == b.listed;
  }

  function LateRun(lease: nat, late: int, random: real): (es: seq<Event>) {
    [Claim(0, 0), Look(0, lease + 1, lease), Recover(0, lease + 1), Claim(0, lease + 1),
      Finish(0, Delivered, random, late)]
  }

  /**
   Without the first timing assumption the claim fails: a recipient recovered under a worker that was
   still running is claimed again, and the late commit of the first attempt marks it delivered while
   the second attempt is open.
  */
  lemma LateCommitHitsAnother(r: Recipient, lease: nat, late: int, random: real)
    requires r.state == Queued && r.attempts == 0 && r.nextAttemptAt <= 0
    ensures
      var end := Run(OneQueued(r), LateRun(lease, late, random));
      && Invariant(OneQueued(r))
      && 0 in end.recipients && end.recipients[0].state == DeliveredState
      && OpenOf(end, 0) == {1} && !Sound(end)
      && !TimelyRun(OneQueued(r), LateRun(lease, late, random))
  {
    OneQueuedIsFine(r);
    hide Invariant, TimelyRun;
    var es, db0, db1, now := LateRun(lease, late, random), OneQueued(r), FirstAttempt(r), lease + 1;
    FiveSteps(db0, es);
    ClaimsFirst(r);
    StaleFirst(db1, r, lease);
    var db2 := db1.(listed := multiset{0});
    assert multiset{} + multiset{0} == multiset{0} && multiset{0} - multiset{0} == multiset{};
    RecoverThenClaim(db2, r, now);
    var db4 := SecondAttempt(r, now, db1.live, multiset{});
    FinishesFirst(r, lease, late, random);
    TimelyTwo(db0, es);
    assert 0 in db1.live && db1.log[0].startedAt < now - lease;
  }

  lemma FinishesFirst(r: Recipient, lease: nat, late: int, random: real)
    ensures var end := Step(SecondAttempt(r, lease + 1, FirstAttempt(r).live, multiset{}),
            Finish(0, Delivered, random, late));
      0 in end.recipients && end.recipients[0].state == DeliveredState && OpenOf(end, 0) == {1}
  {
    var db := SecondAttempt(r, lease + 1, FirstAttempt(r).live, multiset{});
    assert 0 in db.live && 0 in db.log && db.recipients[0].state == Attempting;
    assert NextState(db.live[0], Delivered, late, random).state == DeliveredState;
    var end := Step(db, Finish(0, Delivered, random, late));
    assert end.log[1] == Attempt(0, lease + 1, None, AttemptError, false) && !Open(end.log[0]);
    assert OpenOf(end, 0) == {1};
  }

  lemma FiveSteps(db: Db, es: seq<Event>)
    requires |es| == 5
    ensures Run(db, es) == Step(Step(Step(Step(Step(db, es[0]), es[1]), es[2]), es[3]), es[4])
  {
    hide Step;
    forall i | 0 <= i < 5 ensures Run(db, es[..i + 1]) == Step(Run(db, es[..i]), es[i]) { RunStep(db, es, i); }
    assert es[..5] == es && Run(db, es[..0]) == db;
    assert Run(db, es[..1]) == Step(db, es[0]) && Run(db, es[..2]) == Step(Step(db, es[0]), es[1]);
    assert Run(db, es[..3]) == Step(Step(Step(db, es[0]), es[1]), es[2]);
  }

  lemma TimelyTwo(db: Db, es: seq<Event>)
    requires |es| >= 2
    ensures TimelyRun(db, es) ==> Timely(Step(db, es[0]), es[1])
  {
    hide Step, Timely;
    var rest := es[1..];
    assert es == [es[0]] + rest && rest == [es[1]] + rest[1..];
    TimelyCons(db, es[0], rest);
    TimelyCons(Step(db, es[0]), es[1], rest[1..]);
  }

  function RacingRun(lease: nat): (es: seq<Event>) {
    [Claim(0, 0), Crash(0), Look(0, lease + 1, lease), Look(0, lease + 1, lease), Recover(0, lease + 1),
      Claim(0, lease + 1), Recover(0, lease + 1)]
  }

  /**
   Nor does it hold without the second: two recoveries read the recipient of a crashed worker as stuck,
   one defers it, a new worker claims it, and the other recovery, which looks at nothing but the state,
   closes the new worker's attempt under it and defers the recipient again.
  */
  lemma RecoveryHitsNewAttempt(r: Recipient, lease: nat)
    requires r.state == Queued && r.attempts == 0 && r.nextAttemptAt <= 0
    ensures
      var end := Run(OneQueued(r), RacingRun(lease));
      && Invariant(OneQueued(r))
      && 1 in end.live && 1 in end.log && !Open(end.log[1])
      && 0 in end.recipients && end.recipients[0].state == Deferred && end.recipients[0].nextAttemptAt == lease + 1
  {
    OneQueuedIsFine(r);
    hide Invariant;
    var es, db0, now := RacingRun(lease), OneQueued(r), lease + 1;
    assert es[..5] == [es[0], es[1], es[2], es[3], es[4]] && es == es[..5] + [es[5]] + [es[6]];
    SevenSteps(db0, es);
    ClaimsFirst(r);
    var db2 := FirstAttempt(r).(live := map[]);
    assert Step(FirstAttempt(r), Crash(0)) == db2;
    StaleFirst(db2, r, lease);
    var db3 := db2.(listed := multiset{0});
    assert multiset{} + multiset{0} == multiset{0} && multiset{0} + multiset{0} - multiset{0} == multiset{0};
    StaleFirst(db3, r, lease);
    var db4 := db2.(listed := multiset{0} + multiset{0});
    RecoverThenClaim(db4, r, now);
    ClosesSecond(r, lease);
  }

  lemma ClosesSecond(r: Recipient, lease: nat)
    ensures var end := Step(SecondAttempt(r, lease + 1, map[], multiset{0}), Recover(0, lease + 1));
      && 1 in end.live && 1 in end.log && !Open(end.log[1])
      && 0 in end.recipients && end.recipients[0].state == Deferred && end.recipients[0].nextAttemptAt == lease + 1
  {
  }

  lemma SevenSteps(db: Db, es: seq<Event>)
    requires |es| == 7
    ensures Run(db, es) == Step(Step(Step(Step(Step(Step(Step(db, es[0]), es[1]), es[2]), es[3]), es[4]), es[5]), es[6])
  {
    hide Step;
    FiveSteps(db, es[..5]);
    RunStep(db, es, 5);
    RunStep(db, es, 6);
    assert es[..7] == es;
  }

  // --- the tables, in place ---------------------------------------------------------------------

  function Claims(group: seq<RecipientId>, now: int): (es: seq<Event>) {
    seq(|group|, i requires 0 <= i < |group| => Claim(group[i], now))
  }

  function Looks(group: seq<RecipientId>, now: int, lease: int): (es: seq<Event>) {
    seq(|group|, i requires 0 <= i < |group| => Look(group[i], now, lease))
  }

  function Recoveries(stuck: seq<RecipientId>, now: int): (es: seq<Event>) {
    seq(|stuck|, i requires 0 <= i < |stuck| => Recover(stuck[i], now))
  }

  function Finishes(batch: seq<AttemptId>, outcomes: seq<Outcome>, randoms: seq<real>, now: int): (es: seq<Event>)
    requires |batch| == |outcomes| == |randoms|
  {
    seq(|batch|, i requires 0 <= i < |batch| => Finish(batch[i], outcomes[i], randoms[i], now))
  }

  lemma RunNothing(db: Db, es: seq<Event>)
    requires es == []
    ensures Run(db, es) == db
  {
  }

  lemma RunStep(db: Db, es: seq<Event>, i: nat)
    requires i < |es|
    ensures Run(db, es[..i + 1]) == Step(Run(db, es[..i]), es[i])
  {
    assert es[..i + 1][..i] == es[..i];
  }

  lemma IntentsNothing(db: Db, es: seq<Event>)
    requires es == []
    ensures Intents(db, es) == []
  {
  }

  lemma IntentsStep(db: Db, es: seq<Event>, i: nat)
    requires i < |es|
    ensures Intents(db, es[..i + 1]) == Intents(db, es[..i]) + StepIntents(Run(db, es[..i]), es[i])
  {
    hide Run, StepIntents;
    assert es[..i + 1][..i] == es[..i];
  }

  class DeliveryStore {
    var recipients: map<RecipientId, Recipient>
    var log: map<AttemptId, Attempt>
    var nextId: AttemptId
    var live: map<AttemptId, Snapshot>
    var listed: multiset<RecipientId>

    ghost function Value(): (db: Db)
      reads this
    {
      Db(recipients, log, nextId, live, listed)
    }

    /** Mark the due recipients of a group attempting and open their attempts. */
    method Begin(group: seq<RecipientId>, now: int) returns (claimed: seq<AttemptId>)
      modifies this
      ensures Value() == Run(old(Value()), Claims(group, now))
      ensures nextId == old(nextId) + |claimed|
      ensures forall i :: 0 <= i < |claimed| ==> claimed[i] == old(nextId) + i && claimed[i] in live
    {
      hide Run;
      ghost var db := Value();
      ghost var es := Claims(group, now);
      claimed := [];
      RunNothing(db, es[..0]);
      for i := 0 to |group|
        invariant Value() == Run(db, es[..i])
        invariant nextId == db.nextId + |claimed|
        invariant forall k :: 0 <= k < |claimed| ==> claimed[k] == db.nextId + k && claimed[k] in live
      {
        RunStep(db, es, i);
        var rid := group[i];
        if rid in recipients && Waiting(recipients[rid].state) && recipients[rid].nextAttemptAt <= now {
          var row := recipients[rid].(state := Attempting, attempts := recipients[rid].attempts + 1, updatedAt := now);
          recipients := recipients[rid := row];
          log := log[nextId := Attempt(rid, now, None, AttemptError, false)];
          live := live[nextId := SnapshotOf(row)];
          claimed := claimed + [nextId];
          nextId := nextId + 1;
        }
      }
      assert es[..|group|] == es;
    }

    /** Commit every outcome of a batch straight after its transport returned. */
    method CommitOutcomes(batch: seq<AttemptId>, outcomes: seq<Outcome>, randoms: seq<real>, now: int)
            returns (lost: nat, intents: seq<(RecipientId, Dsn)>)
      requires |batch| == |outcomes| == |randoms|
      modifies this
      ensures Value() == Run(old(Value()), Finishes(batch, outcomes, randoms, now))
      ensures intents == Intents(old(Value()), Finishes(batch, outcomes, randoms, now))
      ensures Invariant(old(Value())) ==> lost == 0
    {
      hide Invariant;
      hide NextState;
      hide Run;
      hide Intents;
      ghost var db := Value();
      ghost var es := Finishes(batch, outcomes, randoms, now);
      lost, intents := 0, [];
      RunNothing(db, es[..0]);
      IntentsNothing(db, es[..0]);
      for i := 0 to |batch|
        invariant Value() == Run(db, es[..i]) && intents == Intents(db, es[..i])
        invariant Invariant(db) ==> Invariant(Value()) && lost == 0
      {
        RunStep(db, es, i);
        IntentsStep(db, es, i);
        StepKeepsIf(Value(), es[i]);
        var aid := batch[i];
        if aid !in live || aid !in log {
          continue;
        }
        var rid := log[aid].recipient;
        var t := NextState(live[aid], outcomes[i], now, randoms[i]);
        var moved := rid in recipients && recipients[rid].state == Attempting;
        if moved {
          recipients := recipients[rid := recipients[rid].(state := t.state, nextAttemptAt := t.nextAttemptAt,
            updatedAt := now)];
          intents := intents + Addressed(rid, t.dsn);
        } else {
          lost := lost + 1;
        }
        log := log[aid := log[aid].(finishedAt := Some(now), result := if moved then t.result else AttemptError)];
        live := live - {aid};
      }
      assert es[..|batch|] == es;
    }

    /** Read which of the group's recipients are stuck: attempting, and untouched for longer than the lease. */
    method ListStuck(group: seq<RecipientId>, now: int, lease: int) returns (stuck: seq<RecipientId>)
      modifies this
      ensures Value() == Run(old(Value()), Looks(group, now, lease))
      ensures listed == old(listed) + multiset(stuck)
    {
      hide Run;
      ghost var db := Value();
      ghost var es := Looks(group, now, lease);
      stuck := [];
      RunNothing(db, es[..0]);
      for i := 0 to |group|
        invariant Value() == Run(db, es[..i])
        invariant listed == db.listed + multiset(stuck)
      {
        RunStep(db, es, i);
        var rid := group[i];
        var staleBefore := now - lease;
        if rid in recipients && recipients[rid].state == Attempting && recipients[rid].updatedAt < staleBefore
          && (forall a :: a in log && log[a].recipient == rid && Open(log[a]) ==> log[a].startedAt < staleBefore) {
          listed := listed + multiset{rid};
          stuck := stuck + [rid];
        }
      }
      assert es[..|group|] == es;
    }

    /** Close the attempts of the stuck recipients that are still attempting, and return them to deferred. */
    method RecoverInterrupted(stuck: seq<RecipientId>, now: int) returns (recovered: nat)
      modifies this
      ensures Value() == Run(old(Value()), Recoveries(stuck, now))
    {
      hide Run;
      ghost var db := Value();
      ghost var es := Recoveries(stuck, now);
      recovered := 0;
      RunNothing(db, es[..0]);
      for i := 0 to |stuck|
        invariant Value() == Run(db, es[..i])
      {
        RunStep(db, es, i);
        var rid := stuck[i];
        if rid !in listed { continue; }
        listed := listed - multiset{rid};
        if rid in recipients && recipients[rid].state == Attempting {
          recipients := recipients[rid := recipients[rid].(state := Deferred, nextAttemptAt := now, updatedAt := now)];
          log := map a | a in log ::
            if log[a].recipient == rid && Open(log[a]) then log[a].(finishedAt := Some(now), result := AttemptError)
              else log[a];
          recovered := recovered + 1;
        }
      }
      assert es[..|stuck|] == es;
    }
  }

  lemma StepKeepsIf(db: Db, e: Event)
    requires e.Finish?
    ensures Invariant(db) ==> Invariant(Step(db, e))
    ensures Invariant(db) && e.aid in db.live ==>
      e.aid in db.log && db.log[e.aid].recipient in db.recipients
        && db.recipients[db.log[e.aid].recipient].state == Attempting
  {
    if Invariant(db) {
      StepKeeps(db, e);
      if e.aid in db.live { LiveIsTheOpenOne(db, e.aid); }
    }
  }
}
