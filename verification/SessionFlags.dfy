/**
 The flags a client holds, over whole sessions. It is told the flags of a message by our own FETCH and STORE
 answers and by syncs; after a STORE that asks for no answer (".SILENT") it applies the change to what it
 holds. It forgets a message that leaves its list. What it holds is compared case-folded.
*/
module SessionFlags {
  import opened Sets
  import opened Flags
  import opened MailStore
  import opened ViewModel
  import opened ViewProofs
  import opened Sessions

  type Held = map<Uid, seq<Flag>>

  function Heard(held: Held, rs: seq<Response>): (r: Held) {
    if rs == [] then held
    else
      var n := |rs| - 1;
      var h := Heard(held, rs[..n]);
      if rs[n].Fetch? then h[rs[n].uid := rs[n].flags] else h
  }

  function Kept(held: Held, client: Option<seq<Uid>>): (r: Held) {
    map u | u in held && client.Some? && u in client.value :: held[u]
  }

  /** What the client holds after a step of the session. */
  function HeldAfter(s: Session, id: MailboxId, e: Event, held: Held): (r: Held)
    requires id in s.tables
  {
    var t := s.tables;
    match e
    case Others(_) => held
    case Sync(a, b, c, opts) =>
      var t1 := Run(t, a);
      var t2 := Run(t1, b);
      var t3 := Run(t2, c);
      Kept(Heard(held, SyncView(s.view, t[id], t1[id], t2[id], t3[id], opts).1), Step(s, id, e).client)
    case Expunge(_, _, _) => Kept(held, Step(s, id, e).client)
    case Move(_, _, _, _) => Kept(held, Step(s, id, e).client)
    case Note(uids, _) => held + Answered(s.view, t[id], uids)
    case Silent(uids, op, flags, since, _) => Assumed(held, Stored(t[id], uids, since), op, flags)
  }

  function Answered(v: View, mb: Mailbox, uids: set<Uid>): (r: Held) {
    map u | u in uids && u in v.known && u in mb.messages :: mb.messages[u].flags
  }

  function Assumed(held: Held, stored: set<Uid>, op: StoreOperation, flags: seq<Flag>): (r: Held) {
    map u | u in held :: if u in stored then ApplyFlags(held[u], op, flags) else held[u]
  }

  function HeldRun(s: Session, id: MailboxId, es: seq<Event>): (r: Held)
    requires id in s.tables
  {
    if es == [] then map[]
    else
      var n := |es| - 1;
      HeldAfter(RunSession(s, id, es[..n]), id, es[n], HeldRun(s, id, es[..n]))
  }

  // --- right about what it has heard of ---------------------------------------------------------

  ghost predicate RightAbout(flags: seq<Flag>, r: Row) {
    Folded(flags) == Folded(r.flags)
  }

  /** Of a message the view takes as heard of, the client holds the flags it has. */
  ghost predicate Told(v: View, mb: Mailbox, held: Held) {
    forall u :: u in held ==> ToldAt(v, mb, held, u)
  }

  ghost predicate ToldAt(v: View, mb: Mailbox, held: Held, u: Uid)
    requires u in held
  {
    && u in v.known && IsNormalized(held[u])
    && (u in mb.messages && mb.messages[u].modseq == v.known[u] ==> RightAbout(held[u], mb.messages[u]))
  }

  lemma ToldLater(v: View, a: Mailbox, b: Mailbox, held: Held)
    requires Valid(a) && Later(a, b) && Consistent(v, a) && Told(v, a, held)
    ensures Told(v, b, held)
  {
    hide IsNormalized, RightAbout;
    forall u | u in held ensures ToldAt(v, b, held, u) {
      assert ToldAt(v, a, held, u);
      if u in b.messages && b.messages[u].modseq == v.known[u] { SameRow(v, a, b, u); }
    }
  }

  /** A row that has the modseq the view heard of is the row there was. */
  lemma SameRow(v: View, a: Mailbox, b: Mailbox, u: Uid)
    requires Valid(a) && Later(a, b) && Consistent(v, a)
    requires u in v.known && u in b.messages && b.messages[u].modseq == v.known[u]
    ensures u in a.messages && a.messages[u] == b.messages[u]
  {
    assert RowLater(a, b, u);
    assert u in v.uids by { assert u in Elements(v.uids); }
    if u in a.messages { assert HeardOf(v, a, u) && ValidRow(a, u, a.messages[u]); }
  }

  // --- a sync -----------------------------------------------------------------------------------

  lemma {:induction false} HeardOfRows(held: Held, rs: seq<Response>, mb: Mailbox, condstore: bool)
    requires forall r :: r in rs ==> TellsRow(r, mb, condstore)
    ensures Heard(held, rs).Keys == held.Keys + Elements(FetchUids(rs))
    ensures forall u :: u in FetchUids(rs) ==> u in mb.messages && Heard(held, rs)[u] == mb.messages[u].flags
    ensures forall u :: u in held && u !in FetchUids(rs) ==> Heard(held, rs)[u] == held[u]
  {
    if rs != [] {
      var n := |rs| - 1;
      var r := rs[n];
      assert r in rs && forall x :: x in rs[..n] ==> x in rs;
      HeardOfRows(held, rs[..n], mb, condstore);
      if r.Fetch? {
        assert FetchUids(rs) == FetchUids(rs[..n]) + [r.uid];
        assert Elements(FetchUids(rs)) == Elements(FetchUids(rs[..n])) + {r.uid};
      }
    }
  }

  /** What a sync takes as heard of: what it fetched, as the read of the rows found it, and what was heard of before. */
  lemma SyncKnown(v: View, s0: Mailbox, s1: Mailbox, s2: Mailbox, s3: Mailbox, opts: SyncOptions, u: Uid)
    requires Reads(s0, s1, s2, s3) && Consistent(v, s0)
    requires u in SyncView(v, s0, s1, s2, s3, opts).0.known
    ensures var (w, rs) := SyncView(v, s0, s1, s2, s3, opts);
      && (u in FetchUids(rs) ==> u in s1.messages && w.known[u] == s1.messages[u].modseq)
      && (u !in FetchUids(rs) && u in v.known ==> w.known[u] == v.known[u])
  {
    if s0.highestModseq == v.highestModseq {
      FlushHasNoFetches(v, opts);
    } else {
      ConsistentLater(v, s0, s1);
      LaterTransitive(s1, s2, s3);
      SyncKnownChanged(v, s0, s1, s2, s3, opts, u);
    }
  }

  lemma SyncKnownChanged(v: View, s0: Mailbox, s1: Mailbox, s2: Mailbox, s3: Mailbox, opts: SyncOptions, u: Uid)
    requires Reads(s0, s1, s2, s3) && Later(s1, s3) && Consistent(v, s0) && Consistent(v, s1)
    requires s0.highestModseq != v.highestModseq && u in SyncView(v, s0, s1, s2, s3, opts).0.known
    ensures var (w, rs) := SyncView(v, s0, s1, s2, s3, opts);
      && (u in FetchUids(rs) ==> u in s1.messages && w.known[u] == s1.messages[u].modseq)
      && (u !in FetchUids(rs) && u in v.known ==> w.known[u] == v.known[u])
  {
    var changed, maxUid := ChangedSince(s1, v.highestModseq), MaxUid(v.uids);
    var pended := v.(pending := SyncPending(v, s2, s3));
    var (f, expunges) := Flush(pended, opts);
    FlushedAfterSync(v, s0, s1, s2, s3, opts);
    ArrivedAfterSync(v, f, s0, s1, s3);
    var arrivals := Arrivals(changed, maxUid);
    var w := Arrived(f, arrivals);
    var exists_ := ExistsFor(w, arrivals);
    var (told, fetches) := FlagNews(w, changed, maxUid, opts.condstore);
    ChangedSinceMeaning(s1, v.highestModseq);
    MaxUidBounds(v.uids);
    hide ChangedSince, SyncPending, Flush, Arrivals, Arrived, ExistsFor, Consistent, Valid, Later;
    FlagNewsFetches(w, changed, maxUid, opts.condstore);
    FlagNewsKnown(w, changed, maxUid, opts.condstore);
    NewsUidsMeaning(w, changed, maxUid);
    hide FlagNews;
    FetchesOf(pended, opts, w, arrivals, fetches);
    KnownAfterNews(v, f, w, told, changed, maxUid, s1, u);
    assert u in FetchUids(fetches) <==> u in Elements(FetchUids(fetches));
  }

  lemma FetchesOf(pended: View, opts: SyncOptions, w: View, arrivals: seq<FlagRow>, fetches: seq<Response>)
    ensures FetchUids(Flush(pended, opts).1 + ExistsFor(w, arrivals) + fetches) == FetchUids(fetches)
  {
    var expunges, exists_ := Flush(pended, opts).1, ExistsFor(w, arrivals);
    FlushHasNoFetches(pended, opts);
    ExistsIsNoFetch(w, arrivals);
    FetchUidsConcat(expunges, exists_);
    FetchUidsConcat(expunges + exists_, fetches);
  }

  lemma KnownAfterNews(v: View, f: View, w: View, told: View, changed: seq<FlagRow>, maxUid: Uid, s1: Mailbox, u: Uid)
    requires v.known.Keys == Elements(v.uids) && f.known.Keys == Elements(f.uids) && u in w.known
             && w.known.Keys == Elements(w.uids)
    requires maxUid == MaxUid(v.uids) && forall x :: x in v.uids ==> x <= maxUid
    requires forall x :: x in w.uids <==> x in f.uids || (x in s1.messages && x > maxUid)
    requires forall x :: x in w.known && x in f.known ==> w.known[x] == f.known[x]
    requires forall x :: x in f.known ==> x in v.known && f.known[x] == v.known[x]
    requires forall c :: c in changed ==> IsRowOf(s1, c)
    requires told.known.Keys == w.known.Keys
    requires forall c :: c in changed && IsNews(w, maxUid, c) ==> told.known[c.uid] == c.modseq
    requires u in NewsUids(w, changed, maxUid) ==> exists c :: c in changed && c.uid == u && IsNews(w, maxUid, c)
    requires u !in NewsUids(w, changed, maxUid) ==> told.known[u] == w.known[u]
    ensures u in NewsUids(w, changed, maxUid) ==> u in s1.messages && told.known[u] == s1.messages[u].modseq
    ensures u !in NewsUids(w, changed, maxUid) && u in v.known ==> told.known[u] == v.known[u]
  {
    assert u in w.uids by { assert u in Elements(w.uids); }
    if u in v.known {
      assert u in v.uids by { assert u in Elements(v.uids); }
      assert u in Elements(f.uids);
    }
  }

  lemma SyncTold(v: View, s0: Mailbox, s1: Mailbox, s2: Mailbox, s3: Mailbox, opts: SyncOptions, held: Held)
    requires Reads(s0, s1, s2, s3) && Later(s0, s3) && Consistent(v, s0) && Told(v, s0, held)
    ensures var (w, rs) := SyncView(v, s0, s1, s2, s3, opts);
      Told(w, s3, Kept(Heard(held, rs), Some(w.uids)))
  {
    var (w, rs) := SyncView(v, s0, s1, s2, s3, opts);
    SyncKeeps(v, s0, s1, s2, s3, opts);
    SyncTells(v, s0, s1, s2, s3, opts);
    HeardOfRows(held, rs, s1, opts.condstore);
    ToldLater(v, s0, s3, held);
    LaterTransitive(s1, s2, s3);
    var after := Kept(Heard(held, rs), Some(w.uids));
    forall u | u in after ensures ToldAt(w, s3, after, u) {
      assert u in w.known by { assert u in Elements(w.uids); }
      SyncKnown(v, s0, s1, s2, s3, opts, u);
      SyncToldAt(v, w, s1, s3, held, after, FetchUids(rs), u);
    }
  }

  lemma SyncToldAt(v: View, w: View, s1: Mailbox, s3: Mailbox, held: Held, after: Held, fetched: seq<Uid>, u: Uid)
    requires Valid(s1) && Later(s1, s3) && Told(v, s3, held) && u in after && u in w.known
    requires u in fetched ==>
      u in s1.messages && after[u] == s1.messages[u].flags && w.known[u] == s1.messages[u].modseq
    requires u !in fetched ==> u in held && after[u] == held[u] && (u in v.known ==> w.known[u] == v.known[u])
    ensures ToldAt(w, s3, after, u)
  {
    if u in fetched {
      assert ValidRow(s1, u, s1.messages[u]);
      assert u in s3.messages ==> RowLater(s1, s3, u);
    } else {
      assert ToldAt(v, s3, held, u);
    }
  }

  // --- a silent STORE ---------------------------------------------------------------------------

  /**
   What the client holds of the message and what it has differ at most in flags that the command itself
   sets or clears.
  */
  ghost predicate Harmless(held: seq<Flag>, has: seq<Flag>, op: StoreOperation, flags: seq<Flag>) {
    op.Replace? || Folded(held) - Named(flags) == Folded(has) - Named(flags)
  }

  ghost function Named(flags: seq<Flag>): set<string> { Folded(flags) - {Lower(RECENT)} }

  /**
   After a silent STORE the client is right about a message it names if and only if before it the two differed
   at most in the flags of the command. Whether it is or not, the view takes the message as heard of.
  */
  lemma SilentExact(mb: Mailbox, uids: seq<Uid>, op: StoreOperation, flags: seq<Flag>, since: Option<Modseq>,
          v: View, held: Held, u: Uid)
    requires Valid(mb) && u in held && u in v.known && IsNormalized(held[u]) && u in Stored(mb, uids, since)
    ensures var after := StoreFlagsTx(mb, uids, op, flags, since);
      && u in after.messages
      && Noted(v, after, Stored(mb, uids, since)).known[u] == after.messages[u].modseq
      && (RightAbout(Assumed(held, Stored(mb, uids, since), op, flags)[u], after.messages[u])
          <==> Harmless(held[u], mb.messages[u].flags, op, flags))
  {
    var was := mb.messages[u].flags;
    assert ValidRow(mb, u, mb.messages[u]);
    StoreExact(mb, uids, op, flags, since, u);
    ApplyFlagsMeaning(held[u], op, flags);
    assert Lower(RECENT) !in Folded(held[u]) && Lower(RECENT) !in Folded(was);
    OperationAgrees(Folded(held[u]), Folded(was), op, Folded(flags));
    hide StoreFlagsTx, ApplyFlags, Folded;
  }

  lemma OperationAgrees(a: set<string>, b: set<string>, op: StoreOperation, change: set<string>)
    requires Lower(RECENT) !in a && Lower(RECENT) !in b
    ensures FoldedOp(a, op, change) == FoldedOp(b, op, change) <==>
            op.Replace? || a - (change - {Lower(RECENT)}) == b - (change - {Lower(RECENT)})
  {
    var named := change - {Lower(RECENT)};
    if op.Add? {
      assert FoldedOp(a, op, change) == (a - named) + named;
      assert FoldedOp(b, op, change) == (b - named) + named;
      assert ((a - named) + named) - named == a - named && ((b - named) + named) - named == b - named;
    }
  }

  /** Every silent STORE of a run is harmless to what the client holds. */
  ghost predicate HarmlessStep(s: Session, id: MailboxId, e: Event, held: Held)
    requires id in s.tables
  {
    match e
    case Silent(uids, op, flags, since, _) =>
      forall u :: u in held && u in Stored(s.tables[id], uids, since) ==>
        Harmless(held[u], s.tables[id].messages[u].flags, op, flags)
    case _ => true
  }

  ghost predicate HarmlessRun(s: Session, id: MailboxId, es: seq<Event>)
    requires id in s.tables
  {
    es == [] ||
    (var n := |es| - 1;
     && HarmlessRun(s, id, es[..n])
     && HarmlessStep(RunSession(s, id, es[..n]), id, es[n], HeldRun(s, id, es[..n])))
  }

  /** A client that has heard of every message it stores to is harmless. */
  lemma HeardIsHarmless(s: Session, id: MailboxId, uids: seq<Uid>, op: StoreOperation, flags: seq<Flag>,
          since: Option<Modseq>, a: seq<Op>, held: Held)
    requires id in s.tables && Told(s.view, s.tables[id], held)
    requires forall u :: u in held && u in Stored(s.tables[id], uids, since) && u in s.view.known ==>
      s.tables[id].messages[u].modseq == s.view.known[u]
    ensures HarmlessStep(s, id, Silent(uids, op, flags, since, a), held)
  {
    forall u | u in held && u in Stored(s.tables[id], uids, since)
      ensures Harmless(held[u], s.tables[id].messages[u].flags, op, flags)
    {
      assert ToldAt(s.view, s.tables[id], held, u);
    }
  }

  lemma SilentTold(v: View, mb: Mailbox, uids: seq<Uid>, op: StoreOperation, flags: seq<Flag>, since: Option<Modseq>,
          held: Held)
    requires Valid(mb) && Told(v, mb, held)
    requires forall u :: u in held && u in Stored(mb, uids, since) ==>
      Harmless(held[u], mb.messages[u].flags, op, flags)
    ensures var after, stored := StoreFlagsTx(mb, uids, op, flags, since), Stored(mb, uids, since);
      Told(Noted(v, after, stored), after, Assumed(held, stored, op, flags))
  {
    var after, stored := StoreFlagsTx(mb, uids, op, flags, since), Stored(mb, uids, since);
    var r := Assumed(held, stored, op, flags);
    forall u | u in r ensures ToldAt(Noted(v, after, stored), after, r, u) {
      assert ToldAt(v, mb, held, u);
      if u in stored {
        SilentExact(mb, uids, op, flags, since, v, held, u);
        ApplyFlagsMeaning(held[u], op, flags);
      } else if u in mb.messages {
        StoreExact(mb, uids, op, flags, since, u);
      }
      hide StoreFlagsTx, ApplyFlags, Harmless, Folded;
    }
  }

  // --- every step -------------------------------------------------------------------------------

  lemma KeptTold(v: View, w: View, mb: Mailbox, held: Held)
    requires Told(v, mb, held) && w.known.Keys == Elements(w.uids)
    requires forall u :: u in w.known ==> u in v.known && w.known[u] == v.known[u]
    ensures Told(w, mb, Kept(held, Some(w.uids)))
  {
    hide IsNormalized, RightAbout;
    var after := Kept(held, Some(w.uids));
    forall u | u in after ensures ToldAt(w, mb, after, u) {
      assert ToldAt(v, mb, held, u) && u in Elements(w.uids);
    }
  }

  lemma NoteTold(v: View, mb: Mailbox, uids: set<Uid>, held: Held)
    requires Valid(mb) && Told(v, mb, held)
    ensures Told(Noted(v, mb, uids), mb, held + Answered(v, mb, uids))
  {
    var after := held + Answered(v, mb, uids);
    forall u | u in after ensures ToldAt(Noted(v, mb, uids), mb, after, u) {
      if u in Answered(v, mb, uids) {
        assert ValidRow(mb, u, mb.messages[u]);
      } else {
        assert ToldAt(v, mb, held, u);
      }
    }
  }

  lemma StepTold(s: Session, id: MailboxId, e: Event, held: Held)
    requires InStep(s, id) && Told(s.view, s.tables[id], held) && HarmlessStep(s, id, e, held)
    ensures var r := Step(s, id, e); id in r.tables && Told(r.view, r.tables[id], HeldAfter(s, id, e, held))
  {
    StepInStep(s, id, e);
    var r := Step(s, id, e);
    match e
    case Others(ops) =>
      RunLater(s.tables, ops);
      ToldLater(s.view, s.tables[id], r.tables[id], held);
    case Sync(a, b, c, opts) => SyncStepTold(s, id, a, b, c, opts, held);
    case Expunge(only, a, vanished) => RemovalTold(s, id, e, held, Doomed(s.tables[id], only));
    case Move(uids, target, a, vanished) =>
      RemovalTold(s, id, e, held, if target in s.tables then Targets(s.tables[id], uids) else {});
    case Note(uids, a) =>
      NoteTold(s.view, s.tables[id], uids, held);
      NoteKeeps(s.view, s.tables[id], uids);
      RunLater(s.tables, a);
      ToldLater(Noted(s.view, s.tables[id], uids), s.tables[id], r.tables[id],
        held + Answered(s.view, s.tables[id], uids));
    case Silent(uids, op, flags, since, a) => SilentStepTold(s, id, uids, op, flags, since, a, held);
  }

  lemma SyncStepTold(s: Session, id: MailboxId, a: seq<Op>, b: seq<Op>, c: seq<Op>, opts: SyncOptions, held: Held)
    requires InStep(s, id) && Told(s.view, s.tables[id], held)
    ensures var e := Sync(a, b, c, opts);
      var r := Step(s, id, e); id in r.tables && Told(r.view, r.tables[id], HeldAfter(s, id, e, held))
  {
    var e := Sync(a, b, c, opts);
    SyncInStep(s, id, a, b, c, opts);
    var t := s.tables;
    var t1 := Run(t, a);
    var t2 := Run(t1, b);
    var t3 := Run(t2, c);
    RunLater(t, a);
    RunLater(t1, b);
    RunLater(t2, c);
    assert Reads(t[id], t1[id], t2[id], t3[id]);
    hide Told, SyncView, Later, Valid, Consistent, Run;
    LaterTransitive(t[id], t1[id], t2[id]);
    LaterTransitive(t[id], t2[id], t3[id]);
    SyncTold(s.view, t[id], t1[id], t2[id], t3[id], opts, held);
  }

  lemma RemovalTold(s: Session, id: MailboxId, e: Event, held: Held, gone: set<Uid>)
    requires (e.Expunge? || e.Move?) && InStep(s, id) && Told(s.view, s.tables[id], held)
    requires InStep(Step(s, id, e), id) && Step(s, id, e).view == ExpungedView(s.view, gone)
    ensures var r := Step(s, id, e); Told(r.view, r.tables[id], HeldAfter(s, id, e, held))
  {
    var r := Step(s, id, e);
    StepLater(s, id, e);
    hide Step;
    ToldLater(s.view, s.tables[id], r.tables[id], held);
    KeptTold(s.view, r.view, r.tables[id], held);
  }

  lemma StepLater(s: Session, id: MailboxId, e: Event)
    requires (e.Expunge? || e.Move?) && id in s.tables && ValidTables(s.tables)
    ensures id in Step(s, id, e).tables && Later(s.tables[id], Step(s, id, e).tables[id])
  {
    hide Commit, Removed, Later, Valid;
    var op := if e.Expunge? then Op.Expunge(id, e.only) else Op.Move(id, e.uids, e.target);
    var t1 := Commit(s.tables, op);
    CommitLater(s.tables, op);
    RunLater(t1, e.a);
    LaterTransitive(s.tables[id], t1[id], Run(t1, e.a)[id]);
    RemovedTables(s, Run(t1, e.a), if e.Expunge? then Doomed(s.tables[id], e.only)
      else if e.target in s.tables then Targets(s.tables[id], e.uids) else {}, e.vanished);
  }

  lemma RemovedTables(s: Session, t: Tables, gone: set<Uid>, vanished: bool)
    ensures Removed(s, t, gone, vanished).tables == t
  {
  }

  lemma SilentStepTold(s: Session, id: MailboxId, uids: seq<Uid>, op: StoreOperation, flags: seq<Flag>,
          since: Option<Modseq>, a: seq<Op>, held: Held)
    requires InStep(s, id) && Told(s.view, s.tables[id], held)
    requires HarmlessStep(s, id, Silent(uids, op, flags, since, a), held)
    ensures var e := Silent(uids, op, flags, since, a);
      var r := Step(s, id, e); id in r.tables && Told(r.view, r.tables[id], HeldAfter(s, id, e, held))
  {
    var store := Op.StoreFlags(id, uids, op, flags, since);
    var t1, stored := Commit(s.tables, store), Stored(s.tables[id], uids, since);
    SilentTold(s.view, s.tables[id], uids, op, flags, since, held);
    hide StoreFlagsTx, Told, Consistent, Later, Valid, Noted, Assumed;
    CommitLater(s.tables, store);
    ConsistentLater(s.view, s.tables[id], t1[id]);
    NoteKeeps(s.view, t1[id], stored);
    RunLater(t1, a);
    ToldLater(Noted(s.view, t1[id], stored), t1[id], Run(t1, a)[id], Assumed(held, stored, op, flags));
  }

  lemma {:induction false} RunTold(s: Session, id: MailboxId, es: seq<Event>)
    requires InStep(s, id) && HarmlessRun(s, id, es)
    ensures var r := RunSession(s, id, es); id in r.tables && Told(r.view, r.tables[id], HeldRun(s, id, es))
  {
    hide Told, HarmlessStep, Step, HeldAfter;
    if es == [] {
      assert Told(s.view, s.tables[id], map[]) by { NothingHeld(s.view, s.tables[id]); }
    } else {
      var n := |es| - 1;
      RunTold(s, id, es[..n]);
      RunInStep(s, id, es[..n]);
      StepTold(RunSession(s, id, es[..n]), id, es[n], HeldRun(s, id, es[..n]));
    }
  }

  lemma NothingHeld(v: View, mb: Mailbox)
    ensures Told(v, mb, map[])
  {
  }

  /**
   After any session whose silent STOREs are harmless, one quiet sync makes every flag the client holds
   right, and it holds the flags of every message the sync fetched.
  */
  lemma HeldFlagsAreRight(t: Tables, id: MailboxId, selecting: seq<Op>, es: seq<Event>, opts: SyncOptions)
    requires ValidTables(t) && id in t && opts.allowExpunge && HarmlessRun(Open(t, id, selecting), id, es)
    ensures
      var s, sync := RunSession(Open(t, id, selecting), id, es), Sync([], [], [], opts);
      var held := HeldAfter(s, id, sync, HeldRun(Open(t, id, selecting), id, es));
      && (forall u :: u in held ==> u in s.tables[id].messages && RightAbout(held[u], s.tables[id].messages[u]))
      && forall u :: u in ChangedSinceHeard(s.view, s.tables[id]) ==> u in held
  {
    OpenInStep(t, id, selecting);
    RunInStep(Open(t, id, selecting), id, es);
    RunTold(Open(t, id, selecting), id, es);
    var s := RunSession(Open(t, id, selecting), id, es);
    hide Open, RunSession, HeldRun, HarmlessRun;
    QuietSyncHeld(s, id, opts, HeldRun(Open(t, id, selecting), id, es));
  }

  lemma QuietSyncHeld(s: Session, id: MailboxId, opts: SyncOptions, held: Held)
    requires InStep(s, id) && opts.allowExpunge && Told(s.view, s.tables[id], held)
    ensures var after := HeldAfter(s, id, Sync([], [], [], opts), held);
      && (forall u :: u in after ==> u in s.tables[id].messages && RightAbout(after[u], s.tables[id].messages[u]))
      && forall u :: u in ChangedSinceHeard(s.view, s.tables[id]) ==> u in after
  {
    var sync, mb := Sync([], [], [], opts), s.tables[id];
    QuietSync(s, id, opts);
    SyncConverges(s.view, mb, opts);
    SyncStepTold(s, id, [], [], [], opts, held);
    var after, r := HeldAfter(s, id, sync, held), Step(s, id, sync);
    var rs := SyncView(s.view, mb, mb, mb, mb, opts).1;
    SyncTells(s.view, mb, mb, mb, mb, opts);
    HeardOfRows(held, rs, mb, opts.condstore);
    hide SyncView, Step, Sorted, RightAbout, IsNormalized;
    forall u | u in after ensures u in mb.messages && RightAbout(after[u], mb.messages[u]) {
      assert ToldAt(r.view, r.tables[id], after, u);
    }
    forall u | u in ChangedSinceHeard(s.view, mb) ensures u in after {
      assert u in FetchUids(rs) && u in Uids(mb);
    }
  }

  // --- a silent STORE that does harm ------------------------------------------------------------

  /**
   Where a silent STORE leaves the client wrong, it stays wrong: a quiet sync has nothing to tell about the
   message.
  */
  lemma HarmIsNotRepaired(s: Session, id: MailboxId, uids: seq<Uid>, op: StoreOperation, flags: seq<Flag>,
          since: Option<Modseq>, opts: SyncOptions, held: Held, u: Uid)
    requires InStep(s, id) && opts.allowExpunge && u in held && u in s.view.known && IsNormalized(held[u])
    requires u in Stored(s.tables[id], uids, since)
    requires !Harmless(held[u], s.tables[id].messages[u].flags, op, flags)
    ensures
      var silent, sync := Silent(uids, op, flags, since, []), Sync([], [], [], opts);
      var s1, held1 := Step(s, id, silent), HeldAfter(s, id, silent, held);
      var s2, held2 := Step(s1, id, sync), HeldAfter(s1, id, sync, held1);
      u in held2 && u in s2.tables[id].messages && !RightAbout(held2[u], s2.tables[id].messages[u])
  {
    var silent := Silent(uids, op, flags, since, []);
    var s1, held1 := Step(s, id, silent), HeldAfter(s, id, silent, held);
    SilentInStep(s, id, uids, op, flags, since, []);
    SilentExact(s.tables[id], uids, op, flags, since, s.view, held, u);
    var mb := s1.tables[id];
    assert mb == StoreFlagsTx(s.tables[id], uids, op, flags, since);
    hide StoreFlagsTx, Step, Harmless, RightAbout;
    QuietSync(s1, id, opts);
    SyncConverges(s1.view, mb, opts);
    SyncTells(s1.view, mb, mb, mb, mb, opts);
    var rs := SyncView(s1.view, mb, mb, mb, mb, opts).1;
    HeardOfRows(held1, rs, mb, opts.condstore);
    assert u !in ChangedSinceHeard(s1.view, mb);
    QuietHeld(s1, id, opts, held1);
    assert u in Uids(mb);
  }

  lemma QuietHeld(s: Session, id: MailboxId, opts: SyncOptions, held: Held)
    requires id in s.tables
    ensures var sync, mb := Sync([], [], [], opts), s.tables[id];
      HeldAfter(s, id, sync, held) == Kept(Heard(held, SyncView(s.view, mb, mb, mb, mb, opts).1),
        Step(s, id, sync).client)
  {
    hide SyncView;
  }

  const SEEN: Flag := "\\Seen"
  const FLAGGED: Flag := "\\Flagged"

  /** A mailbox with one message without flags. */
  function OneMessage(content: Content): (t: Tables) {
    map["INBOX" := Mailbox(2, 1, map[1 := Row(1, [], content)], map[])]
  }

  /** We fetch its flags; another session flags it; we mark it seen, silently. */
  function LosingRun(): (es: seq<Event>) {
    [Note({1}, []), Others([Op.StoreFlags("INBOX", [1], Add, [FLAGGED], None)])]
  }

  /**
   The client never hears that the message was flagged: our silent STORE took the change as heard of. After the
   next sync it holds flags without `\Flagged` for a message that has it.
  */
  lemma SilentStoreLosesFlag(content: Content, opts: SyncOptions)
    requires opts.allowExpunge
    ensures
      var start := Open(OneMessage(content), "INBOX", []);
      var s, held := RunSession(start, "INBOX", LosingRun()), HeldRun(start, "INBOX", LosingRun());
      var silent, sync := Silent([1], Add, [SEEN], None, []), Sync([], [], [], opts);
      var s1, held1 := Step(s, "INBOX", silent), HeldAfter(s, "INBOX", silent, held);
      var s2, held2 := Step(s1, "INBOX", sync), HeldAfter(s1, "INBOX", sync, held1);
      1 in held2 && 1 in s2.tables["INBOX"].messages && !RightAbout(held2[1], s2.tables["INBOX"].messages[1])
  {
    var t, id, es := OneMessage(content), "INBOX", LosingRun();
    var start := Open(t, id, []);
    assert Valid(t[id]) by { assert ValidRow(t[id], 1, t[id].messages[1]); }
    OpenInStep(t, id, []);
    RunInStep(start, id, es);
    LosingState(content);
    hide RunSession, HeldRun, Step, HeldAfter, Open;
    var s, held := RunSession(start, id, es), HeldRun(start, id, es);
    HarmIsNotRepaired(s, id, [1], Add, [SEEN], None, opts, held, 1);
  }

  lemma LosingState(content: Content)
    ensures
      var start := Open(OneMessage(content), "INBOX", []);
      var s, held := RunSession(start, "INBOX", LosingRun()), HeldRun(start, "INBOX", LosingRun());
      && 1 in held && held[1] == [] && 1 in s.view.known && "INBOX" in s.tables
      && 1 in s.tables["INBOX"].messages && 1 in Stored(s.tables["INBOX"], [1], None)
      && !Harmless(held[1], s.tables["INBOX"].messages[1].flags, Add, [SEEN])
  {
    var t, id, es := OneMessage(content), "INBOX", LosingRun();
    var start := Open(t, id, []);
    hide RunSession, HeldRun, Step, HeldAfter, Open, Harmless, Stored;
    TwoSteps(start, id, es[0], es[1]);
    assert es == [es[0], es[1]];
    FlagsFetched(content);
    ThenFlagged(Step(start, id, es[0]), content, HeldAfter(start, id, es[0], map[]));
  }

  lemma TwoSteps(s: Session, id: MailboxId, a: Event, b: Event)
    requires id in s.tables
    ensures var s1 := Step(s, id, a);
      && RunSession(s, id, [a, b]) == Step(s1, id, b)
      && HeldRun(s, id, [a, b]) == HeldAfter(s1, id, b, HeldAfter(s, id, a, map[]))
  {
    hide Step, HeldAfter;
    assert [a, b][..1] == [a] && [a][..0] == [];
    assert RunSession(s, id, []) == s && HeldRun(s, id, []) == map[];
    assert RunSession(s, id, [a]) == Step(s, id, a) && HeldRun(s, id, [a]) == HeldAfter(s, id, a, map[]);
  }

  lemma FlagsFetched(content: Content)
    ensures var start, note := Open(OneMessage(content), "INBOX", []), Note({1}, []);
      var s := Step(start, "INBOX", note);
      && s.tables == OneMessage(content) && 1 in s.view.known
      && HeldAfter(start, "INBOX", note, map[]) == map[1 := []]
  {
    var t := OneMessage(content);
    assert Run(t, []) == t;
    var start := Open(t, "INBOX", []);
    hide Sorted;
    assert start.view.known.Keys == {1};
    assert Answered(start.view, t["INBOX"], {1}) == map[1 := []];
  }

  lemma ThenFlagged(s: Session, content: Content, held: Held)
    requires s.tables == OneMessage(content) && 1 in s.view.known && held == map[1 := []]
    ensures var e := LosingRun()[1];
      var r := Step(s, "INBOX", e);
      && HeldAfter(s, "INBOX", e, held) == held && r.view == s.view && "INBOX" in r.tables
      && 1 in r.tables["INBOX"].messages && 1 in Stored(r.tables["INBOX"], [1], None)
      && !Harmless([], r.tables["INBOX"].messages[1].flags, Add, [SEEN])
  {
    var t, store := s.tables, Op.StoreFlags("INBOX", [1], Add, [FLAGGED], None);
    var mb := t["INBOX"];
    assert [store][1..] == [] && Run(Commit(t, store), []) == Commit(t, store);
    assert Run(t, [store]) == Commit(t, store);
    assert Valid(mb) by { assert ValidRow(mb, 1, mb.messages[1]); }
    hide StoreFlagsTx, Run;
    StoreExact(mb, [1], Add, [FLAGGED], None, 1);
    NowFlagged(StoreFlagsTx(mb, [1], Add, [FLAGGED], None).messages[1].flags);
  }

  lemma NowFlagged(flags: seq<Flag>)
    ensures FoldedOp(Folded([]), Add, Folded([FLAGGED])) == {Lower(FLAGGED)} != Folded([])
    ensures Folded(flags) == {Lower(FLAGGED)} ==> !Harmless([], flags, Add, [SEEN])
  {
    assert Folded([]) == {} && Folded([FLAGGED]) == {Lower(FLAGGED)} && Folded([SEEN]) == {Lower(SEEN)};
    DifferentFlags();
    assert Lower(FLAGGED) in {Lower(FLAGGED)} - Named([SEEN]);
    assert Folded([]) - Named([SEEN]) == {};
  }

  lemma DifferentFlags()
    ensures Lower(FLAGGED) != Lower(SEEN) && Lower(FLAGGED) != Lower(RECENT)
  {
    assert |FLAGGED| != |SEEN| && Lower(FLAGGED)[1] != Lower(RECENT)[1];
  }
}
