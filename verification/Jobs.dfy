/**
 Delivery jobs against the clock (apps/delivery/src/worker.ts). A job reads the clock, recovers, claims its
 recipients in one transaction, and then for each transport that has any of them runs it and commits its
 batch. A transport is taken to obey the signal that cuts it off after the attempt timeout; everything else
 a batch waits for (the database, DSN hooks) takes up to an overhead. Any number of jobs, crashes,
 recoveries, cancels and reports interleave.
*/
module Jobs {
  import opened Retry
  import opened Delivery

  /**
   The transports a job may run, the timeout of each, the time a batch may take outside its transport, and
   the lease after which recovery gives an attempt up.
  */
  datatype Config = Config(transports: nat, timeout: nat, overhead: nat, lease: nat)

  /** The longest a batch takes, from the batch before it or the job's clock reading to its commit. */
  function BatchTime(cfg: Config): (t: nat) { cfg.timeout + cfg.overhead }

  /** The job's clock reading, when its claims commit, and how long each batch took. */
  datatype Job = Job(id: nat, at: int, begun: int, durations: seq<nat>)

  /** The job an attempt belongs to, and its batch there. */
  datatype Slot = Slot(job: Job, batch: nat)

  type Plan = map<AttemptId, Slot>

  /** A transaction, and when it commits; the clock reading it writes may be older. */
  datatype Timed = Timed(at: int, event: Event)

  function Events(xs: seq<Timed>): (es: seq<Event>)
    ensures |es| == |xs|
  {
    if xs == [] then [] else [xs[0].event] + Events(xs[1..])
  }

  function Sum(ds: seq<nat>): (s: nat) {
    if ds == [] then 0 else Sum(ds[..|ds| - 1]) + ds[|ds| - 1]
  }

  ghost predicate SlotOk(s: Slot, cfg: Config) {
    && s.batch < |s.job.durations| <= cfg.transports
    && s.job.at <= s.job.begun <= s.job.at + s.job.durations[0]
    && forall d :: d in s.job.durations ==> d <= BatchTime(cfg)
  }

  /** A batch commits when it and all before it are done. */
  ghost function CommitAt(s: Slot): int {
    s.job.at + if s.batch < |s.job.durations| then Sum(s.job.durations[..s.batch + 1]) else 0
  }

  /** The batch has an attempt that its job claimed. */
  ghost predicate Held(db: Db, plan: Plan, s: Slot) {
    exists a :: a in db.log && a in plan && plan[a] == s && !db.log[a].feedback
  }

  /** A job runs the transports its recipients need: once it has claimed, every batch of it holds one. */
  ghost predicate Staffed(db: Db, plan: Plan, now: int) {
    forall a, b :: a in db.log && a in plan && plan[a].job.begun < now && 0 <= b < |plan[a].job.durations| ==>
      Held(db, plan, Slot(plan[a].job, b))
  }

  /** The clock is read before a transaction commits. */
  ghost predicate ReadBefore(x: Timed) { x.event.Crash? || x.event.now <= x.at }

  /**
   Nothing live is overdue, a claim is a job's, a commit comes when its batch is done, and recovery uses the
   lease.
  */
  ghost predicate Obeys(db: Db, x: Timed, plan: Plan, cfg: Config) {
    && (forall a :: a in db.live ==> a in plan && x.at <= CommitAt(plan[a]))
    && Staffed(db, plan, x.at) && ReadBefore(x)
    && match x.event
       case Claim(rid, now) =>
         Due(db, rid, now) ==>
           db.nextId in plan && SlotOk(plan[db.nextId], cfg) && plan[db.nextId].job.at == now
           && plan[db.nextId].job.begun == x.at
       case Finish(aid, _, _, _) => aid in db.live ==> x.at == CommitAt(plan[aid])
       case Look(_, _, lease) => lease == cfg.lease
       case _ => true
  }

  /** Recoveries of one recipient do not overlap. */
  ghost predicate Serial(db: Db, e: Event) {
    e.Look? ==> e.rid !in db.listed
  }

  /** A run on schedule, from some time on. */
  ghost predicate OnSchedule(db: Db, xs: seq<Timed>, plan: Plan, time: int, cfg: Config)
    decreases |xs|
  {
    xs == [] ||
    (&& time <= xs[0].at && Obeys(db, xs[0], plan, cfg) && Serial(db, xs[0].event)
     && OnSchedule(Step(db, xs[0].event), xs[1..], plan, xs[0].at, cfg))
  }

  /** Tables that are in order, with no job and no recovery running. */
  ghost predicate Quiet(db: Db) {
    Invariant(db) && db.live == map[] && db.listed == multiset{}
  }

  // --- jobs that fit the lease ------------------------------------------------------------------

  lemma {:induction false} SumBound(ds: seq<nat>, timeout: nat)
    requires forall d :: d in ds ==> d <= timeout
    ensures Sum(ds) <= |ds| * timeout
  {
    if ds != [] {
      var n := |ds| - 1;
      assert ds[n] in ds;
      assert forall d :: d in ds[..n] ==> d in ds;
      SumBound(ds[..n], timeout);
      Times(n, timeout);
    }
  }

  lemma Times(n: nat, timeout: nat)
    ensures (n + 1) * timeout == n * timeout + timeout
  {
  }

  lemma TimesGrows(m: nat, n: nat, timeout: nat)
    requires m <= n
    ensures m * timeout <= n * timeout
  {
  }

  lemma CommitBound(s: Slot, cfg: Config)
    requires SlotOk(s, cfg)
    ensures CommitAt(s) <= s.job.at + cfg.transports * BatchTime(cfg)
  {
    var ds := s.job.durations[..s.batch + 1];
    assert forall d :: d in ds ==> d in s.job.durations;
    SumBound(ds, BatchTime(cfg));
    TimesGrows(s.batch + 1, cfg.transports, BatchTime(cfg));
  }

  /** Every live attempt began when its job claimed. */
  ghost predicate PlanFits(db: Db, plan: Plan, cfg: Config) {
    forall a :: a in db.live ==>
      a in db.log && a in plan && SlotOk(plan[a], cfg)
      && db.log[a].startedAt == plan[a].job.at
  }

  /** What a recovery has still to write is listed once, and still attempting. */
  ghost predicate ListedOnce(db: Db) {
    forall rid :: rid in db.listed ==>
      db.listed[rid] == 1 && rid in db.recipients
      && db.recipients[rid].state == Attempting
  }

  lemma EventIsTimely(db: Db, x: Timed, plan: Plan, cfg: Config)
    requires PlanFits(db, plan, cfg) && ListedOnce(db) && Obeys(db, x, plan, cfg)
    requires cfg.transports * BatchTime(cfg) <= cfg.lease
    ensures Timely(db, x.event)
  {
    hide Staffed;
    var e := x.event;
    if e.Look? {
      forall a | a in db.live && a in db.log && db.log[a].recipient == e.rid
        ensures db.log[a].startedAt >= e.now - e.lease
      {
        CommitBound(plan[a], cfg);
      }
    }
  }

  lemma PlanStays(db: Db, x: Timed, plan: Plan, cfg: Config)
    requires Invariant(db) && PlanFits(db, plan, cfg) && Obeys(db, x, plan, cfg)
    ensures PlanFits(Step(db, x.event), plan, cfg)
  {
    hide NextState, Sound, Staffed;
    var r := Step(db, x.event);
    forall a | a in r.live ensures a in r.log && a in plan && SlotOk(plan[a], cfg)
      && r.log[a].startedAt == plan[a].job.at {
      if a in db.live {
        assert a in db.log;
        assert db.nextId !in db.log by { NextIsNew(db); }
      }
    }
  }

  lemma NextIsNew(db: Db)
    requires Invariant(db)
    ensures db.nextId !in db.log
  {
  }

  lemma LookListsOnce(db: Db, rid: RecipientId, now: int, lease: int, x: RecipientId)
    requires rid !in db.listed
    ensures var r := LookTx(db, rid, now, lease);
      x in r.listed ==>
        (x in db.listed && r.listed[x] == db.listed[x])
        || (x == rid && r.listed[x] == 1 && Stale(db, rid, now, lease))
  {
  }

  lemma RecoverUnlists(db: Db, rid: RecipientId, now: int, x: RecipientId)
    requires x in RecoverTx(db, rid, now).listed && db.listed[x] == 1
    ensures var r := RecoverTx(db, rid, now);
      r.listed[x] == 1 && x != rid && (x in db.recipients ==> x in r.recipients && r.recipients[x] == db.recipients[x])
  {
  }

  /** A listed recipient stays attempting through every step but the write of its recovery. */
  lemma ListedAttempting(db: Db, e: Event, x: RecipientId)
    requires Unowned(db, x) && x in db.recipients && db.recipients[x].state == Attempting && !e.Recover?
    ensures var r := Step(db, e);
      x in r.recipients && r.recipients[x].state == Attempting && (!e.Look? ==> r.listed == db.listed)
  {
    hide NextState;
  }

  lemma ListedStays(db: Db, e: Event)
    requires Invariant(db) && ListedOnce(db) && Serial(db, e)
    ensures ListedOnce(Step(db, e))
  {
    var r := Step(db, e);
    forall x | x in r.listed
      ensures r.listed[x] == 1 && x in r.recipients && r.recipients[x].state == Attempting
    {
      hide Sound, Stale, Unowned, ClaimTx, FinishTx, RecoverTx, CancelTx, FeedbackTx, LookTx;
      if e.Recover? {
        assert x in db.listed by { RecoverListed(db, e.rid, e.now, x); }
        RecoverUnlists(db, e.rid, e.now, x);
      } else {
        if e.Look? { LookListsOnce(db, e.rid, e.now, e.lease, x); }
        if x in db.listed { ListedAttempting(db, e, x); } else { OthersListNothing(db, e, x); }
      }
    }
  }

  lemma RecoverListed(db: Db, rid: RecipientId, now: int, x: RecipientId)
    requires x in RecoverTx(db, rid, now).listed
    ensures x in db.listed
  {
  }

  lemma OthersListNothing(db: Db, e: Event, x: RecipientId)
    requires x in Step(db, e).listed && x !in db.listed
    ensures e.Look? && x == e.rid && Stale(db, x, e.now, e.lease) && Step(db, e).recipients == db.recipients
    ensures x in db.recipients && db.recipients[x].state == Attempting
  {
    hide NextState;
  }

  lemma {:induction false} ScheduleKeeps(db: Db, xs: seq<Timed>, plan: Plan, time: int, cfg: Config)
    requires Invariant(db) && PlanFits(db, plan, cfg) && ListedOnce(db)
    requires OnSchedule(db, xs, plan, time, cfg) && cfg.transports * BatchTime(cfg) <= cfg.lease
    ensures TimelyRun(db, Events(xs)) && Invariant(Run(db, Events(xs)))
    decreases |xs|
  {
    hide Step, Timely, Obeys, Serial, Invariant, PlanFits, ListedOnce, BatchTime;
    if xs != [] {
      var x, rest := xs[0], xs[1..];
      EventIsTimely(db, x, plan, cfg);
      StepKeeps(db, x.event);
      PlanStays(db, x, plan, cfg);
      ListedStays(db, x.event);
      ScheduleKeeps(Step(db, x.event), rest, plan, x.at, cfg);
      TimelyCons(db, x.event, Events(rest));
      RunCons(db, x.event, Events(rest));
    }
  }

  // --- jobs that do not -------------------------------------------------------------------------

  function Full(n: nat, t: nat): (ds: seq<nat>) { seq(n, i => t) }

  lemma {:induction false} SumFull(n: nat, t: nat)
    ensures Sum(Full(n, t)) == n * t
  {
    if n > 0 {
      assert Full(n, t)[..n - 1] == Full(n - 1, t);
      SumFull(n - 1, t);
      Times(n - 1, t);
    }
  }

  /** When the last batch of a job commits that started at 0 and whose every batch takes all its time. */
  function LateTime(cfg: Config): (t: nat) { cfg.transports * BatchTime(cfg) }

  /** A job that claims one recipient for each transport. */
  function LongJob(cfg: Config): (job: Job) { Job(0, 0, 0, Full(cfg.transports, BatchTime(cfg))) }

  /** A job that claims one recipient, when the last batch of the long one is about to commit. */
  function NextJob(cfg: Config): (job: Job) { Job(1, LateTime(cfg), LateTime(cfg), [BatchTime(cfg)]) }

  function LatePlan(cfg: Config): (plan: Plan) {
    (map a: AttemptId | a < cfg.transports :: Slot(LongJob(cfg), a))[cfg.transports := Slot(NextJob(cfg), 0)]
  }

  lemma LongSlot(cfg: Config, a: nat)
    requires a < cfg.transports
    ensures a in LatePlan(cfg) && LatePlan(cfg)[a] == Slot(LongJob(cfg), a) && SlotOk(LatePlan(cfg)[a], cfg)
    ensures CommitAt(LatePlan(cfg)[a]) == (a + 1) * BatchTime(cfg) <= LateTime(cfg)
  {
    var t := BatchTime(cfg);
    assert LongJob(cfg).durations[..a + 1] == Full(a + 1, t);
    SumFull(a + 1, t);
    TimesGrows(a + 1, cfg.transports, t);
  }

  lemma NextSlot(cfg: Config)
    requires cfg.transports > 0
    ensures cfg.transports in LatePlan(cfg) && LatePlan(cfg)[cfg.transports] == Slot(NextJob(cfg), 0)
    ensures SlotOk(Slot(NextJob(cfg), 0), cfg) && CommitAt(Slot(NextJob(cfg), 0)) >= LateTime(cfg)
  {
  }

  /** The rows of the log that the long job claimed: one for each batch. */
  ghost predicate LongRows(db: Db, n: nat) {
    forall a :: 0 <= a < n ==>
      a in db.log && db.log[a].recipient == a && db.log[a].startedAt == 0
      && !db.log[a].feedback
  }

  lemma LongIsStaffed(db: Db, cfg: Config, now: int)
    requires LongRows(db, cfg.transports) && now <= LateTime(cfg)
    ensures Staffed(db, LatePlan(cfg), now)
  {
    var plan := LatePlan(cfg);
    forall a, b | a in db.log && a in plan && plan[a].job.begun < now && 0 <= b < |plan[a].job.durations|
      ensures Held(db, plan, Slot(plan[a].job, b))
    {
      assert plan[b] == Slot(LongJob(cfg), b);
    }
  }

  /** A run on schedule that is not timely, and leaves the tables unsound. */
  ghost predicate Breaks(db: Db, xs: seq<Timed>, plan: Plan, time: int, cfg: Config) {
    OnSchedule(db, xs, plan, time, cfg) && !Sound(Run(db, Events(xs))) && !TimelyRun(db, Events(xs))
  }

  lemma BreaksCons(db: Db, x: Timed, rest: seq<Timed>, plan: Plan, time: int, cfg: Config)
    requires time <= x.at && Obeys(db, x, plan, cfg) && Serial(db, x.event)
    requires OnSchedule(Step(db, x.event), rest, plan, x.at, cfg) && !Sound(Run(Step(db, x.event), Events(rest)))
    requires !TimelyRun(Step(db, x.event), Events(rest)) || !Timely(db, x.event)
    ensures Breaks(db, [x] + rest, plan, time, cfg)
  {
    hide Step, Obeys, Serial, Sound, Timely;
    var xs := [x] + rest;
    assert xs[0] == x && xs[1..] == rest && Events(xs) == [x.event] + Events(rest);
    RunCons(db, x.event, Events(rest));
    TimelyCons(db, x.event, Events(rest));
  }

  function FirstRecipient(): (r: Recipient) {
    Recipient(Queued, 0, 0, 0, 0, Notify(false, false, false), false, false)
  }

  function Recipients(n: nat): (m: map<RecipientId, Recipient>)
    ensures forall i :: i in m <==> 0 <= i < n
    ensures forall i :: i in m ==> m[i] == FirstRecipient()
  {
    if n == 0 then map[] else Recipients(n - 1)[n - 1 := FirstRecipient()]
  }

  function ManyQueued(n: nat): (db: Db) {
    Db(Recipients(n), map[], 0, map[], multiset{})
  }

  lemma ManyQueuedIsQuiet(n: nat)
    ensures Quiet(ManyQueued(n))
  {
    var db := ManyQueued(n);
    forall i | i in db.recipients ensures RecipientFits(db, i) {
      assert OpenOf(db, i) == {} && AttemptsOf(db, i) == {};
    }
  }

  /** The claims from j on, at time 0; then the commits of all batches but the last; then what goes wrong. */
  function ClaimsFrom(cfg: Config, j: nat): (xs: seq<Timed>)
    requires j <= cfg.transports
    decreases cfg.transports - j
  {
    if j == cfg.transports then CommitsFrom(cfg, 0) else [Timed(0, Claim(j, 0))] + ClaimsFrom(cfg, j + 1)
  }

  function CommitsFrom(cfg: Config, j: nat): (xs: seq<Timed>)
    decreases cfg.transports - j
  {
    if j + 1 >= cfg.transports then LateItems(cfg)
    else
      var t := (j + 1) * BatchTime(cfg);
      [Timed(t, Finish(j, Delivered, 0.0, t))] + CommitsFrom(cfg, j + 1)
  }

  /** The last recipient is taken for stuck, deferred and claimed again, and then its first attempt commits. */
  function LateItems(cfg: Config): (xs: seq<Timed>) {
    if cfg.transports == 0 then []
    else
      var t, last := LateTime(cfg), cfg.transports - 1;
      [Timed(t, Look(last, t, cfg.lease))] + ([Timed(t, Recover(last, t))] +
        ([Timed(t, Claim(last, t))] + [Timed(t, Finish(last, Delivered, 0.0, t))]))
  }

  /** The long job has claimed the recipients below j. */
  ghost predicate Claiming(db: Db, n: nat, j: nat) {
    && j <= n && db.nextId == j
    && (forall a :: a in db.live <==> 0 <= a < j) && (forall a :: a in db.log <==> 0 <= a < j)
    && LongRows(db, j) && db.listed == multiset{}
    && (forall i :: 0 <= i < j ==>
          i in db.recipients && db.recipients[i].state == Attempting
          && db.recipients[i].updatedAt == 0)
    && (forall i :: j <= i < n ==> i in db.recipients && db.recipients[i] == FirstRecipient())
    && (forall a :: 0 <= a < j ==> Open(db.log[a]))
  }

  /** Its batches below j have committed, and the last one has not. */
  ghost predicate Committing(db: Db, n: nat, j: nat) {
    && j < n && db.nextId == n
    && (forall a :: a in db.live <==> j <= a < n) && (forall a :: a in db.log <==> 0 <= a < n)
    && LongRows(db, n) && db.listed == multiset{}
    && n - 1 in db.recipients && db.recipients[n - 1].state == Attempting && db.recipients[n - 1].updatedAt == 0
  }

  lemma ClaimStep(db: Db, n: nat, j: nat)
    requires Claiming(db, n, j) && j < n
    ensures Claiming(Step(db, Claim(j, 0)), n, j + 1) && Due(db, j, 0)
  {
    assert db.recipients[j] == FirstRecipient();
  }

  lemma CommitStep(db: Db, n: nat, j: nat, now: int)
    requires Committing(db, n, j) && j + 1 < n
    ensures Committing(Step(db, Finish(j, Delivered, 0.0, now)), n, j + 1)
  {
    hide NextState;
  }

  lemma {:induction false} ClaimsBreak(db: Db, cfg: Config, j: nat)
    requires j <= cfg.transports && cfg.transports > 0 && LateTime(cfg) > cfg.lease && Claiming(db, cfg.transports, j)
    ensures Breaks(db, ClaimsFrom(cfg, j), LatePlan(cfg), 0, cfg)
    decreases cfg.transports - j
  {
    hide Step, Obeys, Breaks, Committing, LatePlan, LateTime, Claiming;
    if j == cfg.transports {
      AllClaimed(db, cfg.transports);
      CommitsBreak(db, cfg, 0, 0);
    } else {
      ClaimStep(db, cfg.transports, j);
      ClaimsBreak(Step(db, Claim(j, 0)), cfg, j + 1);
      ClaimObeys(db, cfg, j);
      BreaksMeans(Step(db, Claim(j, 0)), ClaimsFrom(cfg, j + 1), LatePlan(cfg), 0, cfg);
      BreaksCons(db, Timed(0, Claim(j, 0)), ClaimsFrom(cfg, j + 1), LatePlan(cfg), 0, cfg);
    }
  }

  lemma BreaksMeans(db: Db, xs: seq<Timed>, plan: Plan, time: int, cfg: Config)
    requires Breaks(db, xs, plan, time, cfg)
    ensures OnSchedule(db, xs, plan, time, cfg) && !Sound(Run(db, Events(xs))) && !TimelyRun(db, Events(xs))
  {
  }

  lemma AllClaimed(db: Db, n: nat)
    requires n > 0 && Claiming(db, n, n)
    ensures Committing(db, n, 0)
  {
  }

  lemma ClaimObeys(db: Db, cfg: Config, j: nat)
    requires j < cfg.transports && Claiming(db, cfg.transports, j)
    ensures Obeys(db, Timed(0, Claim(j, 0)), LatePlan(cfg), cfg)
  {
    hide LatePlan, CommitAt, SlotOk;
    LongSlot(cfg, j);
    forall a | a in db.live ensures a in LatePlan(cfg) && 0 <= CommitAt(LatePlan(cfg)[a]) {
      LongSlot(cfg, a);
    }
    forall a | a in db.log ensures a in LatePlan(cfg) && LatePlan(cfg)[a].job.begun == 0 {
      LongSlot(cfg, a);
    }
  }

  lemma {:induction false} CommitsBreak(db: Db, cfg: Config, j: nat, time: int)
    requires LateTime(cfg) > cfg.lease && Committing(db, cfg.transports, j) && time <= j * BatchTime(cfg)
    ensures Breaks(db, CommitsFrom(cfg, j), LatePlan(cfg), time, cfg)
    decreases cfg.transports - j
  {
    hide Step, Obeys, Breaks, LatePlan, LateTime, Committing;
    CommittingMeans(db, cfg.transports, j);
    if j + 1 == cfg.transports {
      BatchesInOrder(cfg, j);
      LateItemsBreak(db, cfg, time);
    } else {
      var t := (j + 1) * BatchTime(cfg);
      var x := Timed(t, Finish(j, Delivered, 0.0, t));
      Times(j, BatchTime(cfg));
      CommitStep(db, cfg.transports, j, t);
      CommitsBreak(Step(db, x.event), cfg, j + 1, t);
      CommitObeys(db, cfg, j);
      BreaksMeans(Step(db, x.event), CommitsFrom(cfg, j + 1), LatePlan(cfg), t, cfg);
      BreaksCons(db, x, CommitsFrom(cfg, j + 1), LatePlan(cfg), time, cfg);
    }
  }

  lemma CommittingMeans(db: Db, n: nat, j: nat)
    requires Committing(db, n, j)
    ensures j < n
  {
  }

  lemma BatchesInOrder(cfg: Config, j: nat)
    requires j < cfg.transports
    ensures j * BatchTime(cfg) <= (j + 1) * BatchTime(cfg) <= LateTime(cfg)
  {
    Times(j, BatchTime(cfg));
    TimesGrows(j + 1, cfg.transports, BatchTime(cfg));
  }

  lemma CommitObeys(db: Db, cfg: Config, j: nat)
    requires Committing(db, cfg.transports, j) && j + 1 < cfg.transports
    ensures var t := (j + 1) * BatchTime(cfg);
      Obeys(db, Timed(t, Finish(j, Delivered, 0.0, t)), LatePlan(cfg), cfg)
  {
    hide LatePlan, CommitAt, SlotOk, Staffed, LateTime;
    var t := (j + 1) * BatchTime(cfg);
    LongSlot(cfg, j);
    forall a | a in db.live ensures a in LatePlan(cfg) && t <= CommitAt(LatePlan(cfg)[a]) {
      LongSlot(cfg, a);
      TimesGrows(j + 1, a + 1, BatchTime(cfg));
    }
    LongIsStaffed(db, cfg, t);
  }

  // --- the last batch, when its time is up ------------------------------------------------------

  /** The first attempt of the last recipient is live; `live` and the log as they then are. */
  ghost predicate LastLive(db: Db, n: nat, live: set<AttemptId>) {
    && n > 0 && db.live.Keys == live && LongRows(db, n) && n - 1 in db.recipients
    && (forall a :: a in db.log && db.log[a].recipient == n - 1 ==> a == n - 1 || a == n)
  }

  lemma LateObeys(db: Db, cfg: Config, e: Event, live: set<AttemptId>)
    requires LastLive(db, cfg.transports, live) && live <= {cfg.transports - 1, cfg.transports}
    requires !e.Crash? && e.now == LateTime(cfg)
    requires e.Claim? ==> db.nextId == cfg.transports
    requires e.Finish? ==> e.aid == cfg.transports - 1
    requires e.Look? ==> e.lease == cfg.lease
    ensures Obeys(db, Timed(LateTime(cfg), e), LatePlan(cfg), cfg)
  {
    hide LatePlan, CommitAt, SlotOk, Staffed;
    LongSlot(cfg, cfg.transports - 1);
    NextSlot(cfg);
    LongIsStaffed(db, cfg, LateTime(cfg));
  }

  /** Taken for stuck. */
  lemma LookStep(db: Db, n: nat, now: int, lease: nat)
    requires n > 0 && Committing(db, n, n - 1) && now > lease
    ensures var r := Step(db, Look(n - 1, now, lease));
      && LastLive(db, n, {n - 1}) && LastLive(r, n, {n - 1}) && !Timely(db, Look(n - 1, now, lease))
      && r.listed == multiset{n - 1} && r.recipients[n - 1].state == Attempting && r.nextId == n && n !in r.log
  {
    assert Stale(db, n - 1, now, lease);
    assert multiset{} + multiset{n - 1} == multiset{n - 1};
    assert db.live.Keys == {n - 1};
    assert n - 1 in db.live;
  }

  /** Deferred. */
  lemma RecoverStep(db: Db, n: nat, now: int)
    requires n > 0 && LastLive(db, n, {n - 1}) && n - 1 in db.listed && db.recipients[n - 1].state == Attempting
    requires db.nextId == n && n !in db.log
    ensures var r := Step(db, Recover(n - 1, now));
      && LastLive(r, n, {n - 1}) && Due(r, n - 1, now) && r.nextId == n && n !in r.log
  {
  }

  /** Claimed again. */
  lemma ClaimAgain(db: Db, n: nat, now: int)
    requires n > 0 && LastLive(db, n, {n - 1}) && Due(db, n - 1, now) && db.nextId == n && n !in db.log
    ensures var r := Step(db, Claim(n - 1, now));
      && LastLive(r, n, {n - 1, n}) && r.recipients[n - 1].state == Attempting
      && n in r.log && r.log[n].recipient == n - 1 && Open(r.log[n])
  {
  }

  /** And delivered by its first attempt, with the second open. */
  lemma FinishLast(db: Db, n: nat, now: int)
    requires n > 0 && LastLive(db, n, {n - 1, n}) && db.recipients[n - 1].state == Attempting
    requires n in db.log && db.log[n].recipient == n - 1 && Open(db.log[n])
    ensures !Sound(Step(db, Finish(n - 1, Delivered, 0.0, now)))
  {
    var r := Step(db, Finish(n - 1, Delivered, 0.0, now));
    assert n - 1 in db.live && n - 1 in db.log;
    assert NextState(db.live[n - 1], Delivered, now, 0.0).state == DeliveredState;
    assert n in OpenOf(r, n - 1);
    assert !RecipientFits(r, n - 1);
  }

  lemma LateItemsBreak(db: Db, cfg: Config, time: int)
    requires cfg.transports > 0 && LateTime(cfg) > cfg.lease && time <= LateTime(cfg)
    requires Committing(db, cfg.transports, cfg.transports - 1)
    ensures Breaks(db, LateItems(cfg), LatePlan(cfg), time, cfg)
  {
    hide Step, Obeys, LatePlan, LateTime, LastLive, Committing, Sound, Due;
    var n, t, plan := cfg.transports, LateTime(cfg), LatePlan(cfg);
    var look, recover := Look(n - 1, t, cfg.lease), Recover(n - 1, t);
    var claim, finish := Claim(n - 1, t), Finish(n - 1, Delivered, 0.0, t);
    assert db.listed == multiset{} by { NothingListed(db, n); }
    LookStep(db, n, t, cfg.lease);
    var d1 := Step(db, look);
    RecoverStep(d1, n, t);
    var d2 := Step(d1, recover);
    ClaimAgain(d2, n, t);
    var d3 := Step(d2, claim);
    FinishLast(d3, n, t);
    LateObeys(db, cfg, look, {n - 1});
    LateObeys(d1, cfg, recover, {n - 1});
    LateObeys(d2, cfg, claim, {n - 1});
    LateObeys(d3, cfg, finish, {n - 1, n});
    FourItems(db, look, recover, claim, finish, plan, t, time, cfg);
  }

  lemma NothingListed(db: Db, n: nat)
    requires n > 0 && Committing(db, n, n - 1)
    ensures db.listed == multiset{}
  {
  }

  lemma OnScheduleCons(db: Db, x: Timed, rest: seq<Timed>, plan: Plan, time: int, cfg: Config)
    requires time <= x.at && Obeys(db, x, plan, cfg) && Serial(db, x.event)
    requires OnSchedule(Step(db, x.event), rest, plan, x.at, cfg)
    ensures OnSchedule(db, [x] + rest, plan, time, cfg)
    ensures Run(db, Events([x] + rest)) == Run(Step(db, x.event), Events(rest))
  {
    hide Step, Obeys;
    var xs := [x] + rest;
    assert xs[0] == x && xs[1..] == rest && Events(xs) == [x.event] + Events(rest);
    RunCons(db, x.event, Events(rest));
  }

  lemma FourItems(db: Db, look: Event, recover: Event, claim: Event, finish: Event, plan: Plan, t: int, time: int,
          cfg: Config)
    requires time <= t && look.Look? && look.rid !in db.listed && !Timely(db, look)
    requires !recover.Look? && !claim.Look? && !finish.Look?
    requires Obeys(db, Timed(t, look), plan, cfg) && Obeys(Step(db, look), Timed(t, recover), plan, cfg)
    requires Obeys(Step(Step(db, look), recover), Timed(t, claim), plan, cfg)
    requires Obeys(Step(Step(Step(db, look), recover), claim), Timed(t, finish), plan, cfg)
    requires !Sound(Step(Step(Step(Step(db, look), recover), claim), finish))
    ensures Breaks(db, [Timed(t, look)] + ([Timed(t, recover)] + ([Timed(t, claim)] + [Timed(t, finish)])), plan, time,
            cfg)
  {
    hide Step, Obeys, Sound, Timely;
    var d1 := Step(db, look);
    var d2 := Step(d1, recover);
    var d3 := Step(d2, claim);
    assert [Timed(t, finish)] + [] == [Timed(t, finish)] && Run(Step(d3, finish), []) == Step(d3, finish);
    OnScheduleCons(d3, Timed(t, finish), [], plan, t, cfg);
    OnScheduleCons(d2, Timed(t, claim), [Timed(t, finish)], plan, t, cfg);
    OnScheduleCons(d1, Timed(t, recover), [Timed(t, claim)] + [Timed(t, finish)], plan, t, cfg);
    BreaksCons(db, Timed(t, look), [Timed(t, recover)] + ([Timed(t, claim)] + [Timed(t, finish)]), plan, time, cfg);
  }

  // --- exactly when jobs are safe ---------------------------------------------------------------

  /** Every run on schedule from quiet tables leaves them sound. */
  ghost predicate JobsAreSafe(cfg: Config) {
    forall db: Db, xs: seq<Timed>, plan: Plan, time: int ::
      Quiet(db) && OnSchedule(db, xs, plan, time, cfg) ==> Sound(Run(db, Events(xs)))
  }

  /** And every recovery in it looks only at attempts within the lease. */
  ghost predicate JobsAreTimely(cfg: Config) {
    forall db: Db, xs: seq<Timed>, plan: Plan, time: int ::
      Quiet(db) && OnSchedule(db, xs, plan, time, cfg) ==> TimelyRun(db, Events(xs))
  }

  /**
   With recoveries of one recipient that do not overlap, jobs leave the tables sound in every run on
   schedule if and only if all the batches of a job together, each with its timeout and what it takes
   besides, fit in the lease. `attemptTimeoutMs < leaseMs` says so for one transport that is all there is to
   a batch.
  */
  lemma JobsFitLease(cfg: Config)
    ensures JobsAreSafe(cfg) <==> cfg.transports * (cfg.timeout + cfg.overhead) <= cfg.lease
    ensures JobsAreTimely(cfg) <==> cfg.transports * (cfg.timeout + cfg.overhead) <= cfg.lease
  {
    hide OnSchedule, Run, Sound, TimelyRun, ClaimsFrom;
    if cfg.transports * (cfg.timeout + cfg.overhead) <= cfg.lease {
      forall db: Db, xs: seq<Timed>, plan: Plan, time: int | Quiet(db) && OnSchedule(db, xs, plan, time, cfg)
        ensures Sound(Run(db, Events(xs))) && TimelyRun(db, Events(xs))
      {
        ScheduleKeeps(db, xs, plan, time, cfg);
      }
    } else {
      var db := ManyQueued(cfg.transports);
      assert cfg.transports > 0;
      ManyQueuedIsQuiet(cfg.transports);
      ClaimsBreak(db, cfg, 0);
    }
  }

  /**
   With the worker's default timeout and lease, one transport is safe while everything besides it takes at
   most a minute, and two or more never are.
  */
  lemma DefaultSettings(transports: nat, overhead: nat)
    ensures JobsAreSafe(Config(1, 240_000, overhead, 300_000)) <==> overhead <= 60_000
    ensures transports >= 2 ==> !JobsAreSafe(Config(transports, 240_000, overhead, 300_000))
  {
    hide JobsAreSafe;
    JobsFitLease(Config(1, 240_000, overhead, 300_000));
    JobsFitLease(Config(transports, 240_000, overhead, 300_000));
    if transports >= 2 { TimesGrows(2, transports, 240_000 + overhead); }
  }
}
