/**
 Whole sessions (apps/imap/src/session.ts): a mailbox is selected, and then commands of this
 session, syncs and other sessions' commits follow in any order, with further commits landing
 between any two steps of a command. The client replays every untagged response.
*/
module Sessions {
  import opened Sets
  import opened Flags
  import opened MailStore
  import opened ViewModel
  import opened ViewProofs

  datatype Session = Session(tables: Tables, view: View, client: Option<seq<Uid>>)

  /**
   `a`, `b`, `c`: what other sessions commit between one read of a step and the next. `Note`: our FETCH or
   STORE answers these messages with their flags. `Silent`: our STORE that asks for no answer.
  */
  datatype Event =
    | Others(ops: seq<Op>)
    | Sync(a: seq<Op>, b: seq<Op>, c: seq<Op>, opts: SyncOptions)
    | Expunge(only: Option<seq<Uid>>, a: seq<Op>, vanished: bool)
    | Move(uids: seq<Uid>, target: MailboxId, a: seq<Op>, vanished: bool)
    | Note(answered: set<Uid>, a: seq<Op>)
    | Silent(uids: seq<Uid>, op: StoreOperation, flags: seq<Flag>, since: Option<Modseq>, a: seq<Op>)

  function OpenView(probe: Mailbox, snapshot: Mailbox): (r: View) {
    View(Uids(snapshot), map u | u in snapshot.messages :: snapshot.messages[u].modseq, {}, probe.highestModseq)
  }

  /** SELECT: the modseq is read first, then the rows; `* n EXISTS` gives the client its slots. */
  function Open(t: Tables, id: MailboxId, a: seq<Op>): (r: Session)
    requires id in t
  {
    var t' := Run(t, a);
    var view := OpenView(t[id], t'[id]);
    Session(t', view, Some(view.uids))
  }

  /** What FETCH and STORE answers leave noted: the modseq each answered row had when it was read. */
  function Noted(v: View, mb: Mailbox, uids: set<Uid>): (r: View) {
    v.(known := map u | u in v.known :: if u in uids && u in mb.messages then mb.messages[u].modseq else v.known[u])
  }

  function Replayed(client: Option<seq<Uid>>, rs: seq<Response>, learned: seq<Uid>): (r: Option<seq<Uid>>) {
    if client.None? then None else Replay(client.value, rs, learned)
  }

  /** Our own EXPUNGE or MOVE has committed: the removed UIDs leave the view at once. */
  function Removed(s: Session, t: Tables, gone: set<Uid>, vanished: bool): (r: Session) {
    var view := ExpungedView(s.view, gone);
    Session(t, view, Replayed(s.client, ExpungeResponses(s.view.uids, gone, vanished), view.uids))
  }

  function Step(s: Session, id: MailboxId, e: Event): (r: Session)
    requires id in s.tables
    ensures r.tables.Keys == s.tables.Keys
  {
    var t := s.tables;
    match e
    case Others(ops) => s.(tables := Run(t, ops))
    case Sync(a, b, c, opts) =>
      var t1 := Run(t, a);
      var t2 := Run(t1, b);
      var t3 := Run(t2, c);
      var (view, rs) := SyncView(s.view, t[id], t1[id], t2[id], t3[id], opts);
      Session(t3, view, Replayed(s.client, rs, view.uids))
    case Expunge(only, a, vanished) =>
      Removed(s, Run(Commit(t, Op.Expunge(id, only)), a), Doomed(t[id], only), vanished)
    case Move(uids, target, a, vanished) =>
      var gone := if target in t then Targets(t[id], uids) else {};
      Removed(s, Run(Commit(t, Op.Move(id, uids, target)), a), gone, vanished)
    case Note(uids, a) =>
      s.(tables := Run(t, a), view := Noted(s.view, t[id], uids))
    case Silent(uids, op, flags, since, a) =>
      var t1 := Commit(t, Op.StoreFlags(id, uids, op, flags, since));
      s.(tables := Run(t1, a), view := Noted(s.view, t1[id], Stored(t[id], uids, since)))
  }

  /** The rows a STORE goes through: those named that UNCHANGEDSINCE does not refuse. */
  function Stored(mb: Mailbox, uids: seq<Uid>, since: Option<Modseq>): (r: set<Uid>) {
    Targets(mb, uids) - RefusedUids(mb, uids, since)
  }

  function RunSession(s: Session, id: MailboxId, es: seq<Event>): (r: Session)
    requires id in s.tables
    ensures r.tables.Keys == s.tables.Keys
  {
    if es == [] then s else Step(RunSession(s, id, es[..|es| - 1]), id, es[|es| - 1])
  }

  ghost predicate InStep(s: Session, id: MailboxId) {
    && id in s.tables && ValidTables(s.tables)
    && Consistent(s.view, s.tables[id])
    && s.client == Some(s.view.uids)
  }

  lemma OpenInStep(t: Tables, id: MailboxId, a: seq<Op>)
    requires ValidTables(t) && id in t
    ensures InStep(Open(t, id, a), id)
  {
    RunLater(t, a);
    var t' := Run(t, a);
    OpenConsistent(t[id], t'[id]);
  }

  lemma LaterGrows(a: Mailbox, b: Mailbox)
    requires Later(a, b)
    ensures a.highestModseq <= b.highestModseq && a.uidnext <= b.uidnext
  {
  }

  /** A change that races SELECT's two reads is still reported: its modseq is above the view's. */
  lemma OpenConsistent(s0: Mailbox, s1: Mailbox)
    requires Valid(s0) && Valid(s1) && Later(s0, s1)
    ensures Consistent(OpenView(s0, s1), s1)
  {
    var v := OpenView(s0, s1);
    SortedAscending(s1.messages.Keys);
    ElementsSorted(s1.messages.Keys);
    hide Sorted;
    hide Later;
    assert s0.highestModseq <= s1.highestModseq by { LaterGrows(s0, s1); }
    MaxUidBounds(v.uids);
    forall u | u in s1.messages ensures 1 <= u < s1.uidnext && HeardOf(v, s1, u) {
      assert ValidRow(s1, u, s1.messages[u]);
    }
  }

  lemma NoteKeeps(v: View, s: Mailbox, uids: set<Uid>)
    requires Consistent(v, s)
    ensures Consistent(Noted(v, s, uids), s)
  {
    var w := Noted(v, s, uids);
    assert w.known.Keys == v.known.Keys;
    forall u | u in w.known && u in s.messages ensures HeardOf(w, s, u) { assert HeardOf(v, s, u); }
    forall u | u in w.uids && u !in w.pending ensures LiveOrLate(w, s, u) { assert LiveOrLate(v, s, u); }
  }

  lemma RemovedInStep(s: Session, id: MailboxId, t: Tables, gone: set<Uid>, vanished: bool)
    requires InStep(s, id) && ValidTables(t) && id in t && Later(s.tables[id], t[id])
    requires forall u :: u in gone ==> u !in t[id].messages
    ensures InStep(Removed(s, t, gone, vanished), id)
  {
    ConsistentLater(s.view, s.tables[id], t[id]);
    ExpungeKeeps(s.view, t[id], gone);
    ReplayExpunges(s.view.uids, gone, vanished, ExpungedView(s.view, gone).uids);
  }

  lemma GoneStaysGone(a: Mailbox, b: Mailbox, u: Uid)
    requires Later(a, b) && u !in a.messages && u < a.uidnext
    ensures u !in b.messages
  {
    assert u in b.messages ==> RowLater(a, b, u);
  }

  lemma RemovalInStep(s: Session, id: MailboxId, t1: Tables, a: seq<Op>, gone: set<Uid>, vanished: bool)
    requires InStep(s, id) && ValidTables(t1) && id in t1 && Later(s.tables[id], t1[id])
    requires forall u :: u in gone ==> u < t1[id].uidnext && u !in t1[id].messages
    ensures InStep(Removed(s, Run(t1, a), gone, vanished), id)
  {
    hide Consistent;
    hide Removed;
    RunLater(t1, a);
    var t2 := Run(t1, a);
    forall u | u in gone ensures u !in t2[id].messages {
      GoneStaysGone(t1[id], t2[id], u);
    }
    assert Later(s.tables[id], t2[id]) by { LaterTransitive(s.tables[id], t1[id], t2[id]); }
    RemovedInStep(s, id, t2, gone, vanished);
  }

  lemma DoomedIsGone(mb: Mailbox, only: Option<seq<Uid>>, u: Uid)
    requires Valid(mb) && u in Doomed(mb, only)
    ensures u < ExpungeTx(mb, only).uidnext && u !in ExpungeTx(mb, only).messages
  {
    BelowUidnext(mb, u);
  }

  ghost predicate Removal(t: Tables, t1: Tables, id: MailboxId, gone: set<Uid>)
    requires id in t
  {
    && ValidTables(t1) && id in t1 && Later(t[id], t1[id])
    && (forall u :: u in gone ==> u < t1[id].uidnext && u !in t1[id].messages)
  }

  lemma ExpungeRemoves(t: Tables, id: MailboxId, only: Option<seq<Uid>>)
    requires ValidTables(t) && id in t
    ensures Removal(t, Commit(t, Op.Expunge(id, only)), id, Doomed(t[id], only))
  {
    var t1 := Commit(t, Op.Expunge(id, only));
    CommitLater(t, Op.Expunge(id, only));
    assert t1[id] == ExpungeTx(t[id], only);
    hide Commit;
    hide ExpungeTx;
    hide Doomed;
    forall u | u in Doomed(t[id], only) ensures u < t1[id].uidnext && u !in t1[id].messages {
      DoomedIsGone(t[id], only, u);
    }
  }

  lemma ExpungeInStep(s: Session, id: MailboxId, only: Option<seq<Uid>>, a: seq<Op>, vanished: bool)
    requires InStep(s, id)
    ensures InStep(Step(s, id, Event.Expunge(only, a, vanished)), id)
  {
    hide Later;
    hide Valid;
    hide Consistent;
    hide Commit;
    hide Removed;
    ExpungeRemoves(s.tables, id, only);
    RemovalInStep(s, id, Commit(s.tables, Op.Expunge(id, only)), a, Doomed(s.tables[id], only), vanished);
  }

  lemma MovedIsGone(t: Tables, id: MailboxId, uids: seq<Uid>, target: MailboxId, u: Uid)
    requires ValidTables(t) && id in t && target in t && u in Targets(t[id], uids)
    ensures u < t[id].uidnext && u !in MoveTx(t, id, uids, target)[id].messages
  {
    BelowUidnext(t[id], u);
    hide ValidTables;
    hide MoveTx;
    hide Sorted;
    var from := Sorted(Targets(t[id], uids));
    assert u in from;
    var i :| 0 <= i < |from| && from[i] == u;
    MoveConserves(t, id, uids, target, i);
  }

  lemma MoveCommits(t: Tables, id: MailboxId, uids: seq<Uid>, target: MailboxId)
    requires id in t && target in t
    ensures Commit(t, Op.Move(id, uids, target)) == MoveTx(t, id, uids, target)
  {
    hide MoveTx;
  }

  lemma MoveRemoves(t: Tables, id: MailboxId, uids: seq<Uid>, target: MailboxId)
    requires ValidTables(t) && id in t && target in t
    ensures Removal(t, MoveTx(t, id, uids, target), id, Targets(t[id], uids))
  {
    hide Commit;
    hide MoveTx;
    CommitLater(t, Op.Move(id, uids, target));
    var t1 := MoveTx(t, id, uids, target);
    MoveCommits(t, id, uids, target);
    LaterGrows(t[id], t1[id]);
    forall u | u in Targets(t[id], uids) ensures u < t1[id].uidnext && u !in t1[id].messages {
      MovedIsGone(t, id, uids, target, u);
    }
  }

  lemma MoveInStep(s: Session, id: MailboxId, uids: seq<Uid>, target: MailboxId, a: seq<Op>, vanished: bool)
    requires InStep(s, id)
    ensures InStep(Step(s, id, Event.Move(uids, target, a, vanished)), id)
  {
    hide Later;
    hide Valid;
    hide Consistent;
    hide MoveTx;
    hide Removed;
    var t1 := Commit(s.tables, Op.Move(id, uids, target));
    if target in s.tables {
      MoveRemoves(s.tables, id, uids, target);
      RemovalInStep(s, id, t1, a, Targets(s.tables[id], uids), vanished);
    } else {
      LaterReflexive(s.tables[id]);
      RemovalInStep(s, id, t1, a, {}, vanished);
    }
  }

  lemma SyncInStep(s: Session, id: MailboxId, a: seq<Op>, b: seq<Op>, c: seq<Op>, opts: SyncOptions)
    requires InStep(s, id)
    ensures InStep(Step(s, id, Sync(a, b, c, opts)), id)
  {
    var t := s.tables;
    var t1 := Run(t, a);
    var t2 := Run(t1, b);
    var t3 := Run(t2, c);
    RunLater(t, a);
    RunLater(t1, b);
    RunLater(t2, c);
    SyncKeeps(s.view, t[id], t1[id], t2[id], t3[id], opts);
    SyncReplay(s.view, t[id], t1[id], t2[id], t3[id], opts);
  }

  lemma SilentInStep(s: Session, id: MailboxId, uids: seq<Uid>, op: StoreOperation, flags: seq<Flag>,
          since: Option<Modseq>, a: seq<Op>)
    requires InStep(s, id)
    ensures InStep(Step(s, id, Silent(uids, op, flags, since, a)), id)
  {
    hide Commit, Later, Valid, Consistent, Noted;
    var store := Op.StoreFlags(id, uids, op, flags, since);
    var t1 := Commit(s.tables, store);
    CommitLater(s.tables, store);
    ConsistentLater(s.view, s.tables[id], t1[id]);
    var v := Noted(s.view, t1[id], Stored(s.tables[id], uids, since));
    NoteKeeps(s.view, t1[id], Stored(s.tables[id], uids, since));
    RunLater(t1, a);
    ConsistentLater(v, t1[id], Run(t1, a)[id]);
    NotedUids(s.view, t1[id], Stored(s.tables[id], uids, since));
  }

  lemma NotedUids(v: View, mb: Mailbox, uids: set<Uid>)
    ensures Noted(v, mb, uids).uids == v.uids
  {
  }

  lemma OthersInStep(s: Session, id: MailboxId, ops: seq<Op>)
    requires InStep(s, id)
    ensures InStep(Step(s, id, Others(ops)), id)
  {
    hide Later, Valid, Consistent, Run;
    RunLater(s.tables, ops);
    ConsistentLater(s.view, s.tables[id], Run(s.tables, ops)[id]);
  }

  lemma NoteInStep(s: Session, id: MailboxId, uids: set<Uid>, a: seq<Op>)
    requires InStep(s, id)
    ensures InStep(Step(s, id, Note(uids, a)), id)
  {
    hide Later, Valid, Consistent, Noted, Run;
    NoteKeeps(s.view, s.tables[id], uids);
    NotedUids(s.view, s.tables[id], uids);
    RunLater(s.tables, a);
    ConsistentLater(Noted(s.view, s.tables[id], uids), s.tables[id], Run(s.tables, a)[id]);
  }

  lemma StepInStep(s: Session, id: MailboxId, e: Event)
    requires InStep(s, id)
    ensures InStep(Step(s, id, e), id)
  {
    hide *;
    match e
    case Others(ops) => OthersInStep(s, id, ops);
    case Sync(a, b, c, opts) => SyncInStep(s, id, a, b, c, opts);
    case Expunge(only, a, vanished) => ExpungeInStep(s, id, only, a, vanished);
    case Move(uids, target, a, vanished) => MoveInStep(s, id, uids, target, a, vanished);
    case Note(uids, a) => NoteInStep(s, id, uids, a);
    case Silent(uids, op, flags, since, a) => SilentInStep(s, id, uids, op, flags, since, a);
  }

  lemma {:induction false} RunInStep(s: Session, id: MailboxId, es: seq<Event>)
    requires InStep(s, id)
    ensures InStep(RunSession(s, id, es), id)
  {
    if es != [] {
      RunInStep(s, id, es[..|es| - 1]);
      StepInStep(RunSession(s, id, es[..|es| - 1]), id, es[|es| - 1]);
    }
  }

  /**
   Over every session, with other sessions' commits landing anywhere: the client that replayed every
   response, in the order sent, holds exactly the view's list; every stored message up to the view's
   largest UID is a live entry of it; and an entry still owed an expunge is no longer stored.
  */
  lemma ClientFollowsView(t: Tables, id: MailboxId, selecting: seq<Op>, es: seq<Event>)
    requires ValidTables(t) && id in t
    ensures
      var s := RunSession(Open(t, id, selecting), id, es);
      var mb := s.tables[id];
      && s.client == Some(s.view.uids)
      && Ascending(s.view.uids)
      && (forall u :: u in mb.messages && u <= MaxUid(s.view.uids) ==> u in s.view.uids && u !in s.view.pending)
      && (forall u :: u in s.view.pending ==> u in s.view.uids && u !in mb.messages)
  {
    OpenInStep(t, id, selecting);
    RunInStep(Open(t, id, selecting), id, es);
    var s := RunSession(Open(t, id, selecting), id, es);
    MaxUidBounds(s.view.uids);
    assert forall u :: u in s.view.pending ==> u in Elements(s.view.uids);
  }

  lemma QuietSync(s: Session, id: MailboxId, opts: SyncOptions)
    requires InStep(s, id) && opts.allowExpunge
    ensures var s' := Step(s, id, Sync([], [], [], opts));
      s'.tables == s.tables && UpToDate(s'.view, s.tables[id]) && s'.client == Some(Uids(s.tables[id]))
  {
    SyncInStep(s, id, [], [], [], opts);
    hide Valid;
    hide Consistent;
    hide SyncView;
    SyncConverges(s.view, s.tables[id], opts);
  }

  /**
   After any session at all, one quiet sync that allows expunges brings the view, and so the client,
   to the mailbox exactly.
  */
  lemma QuietSyncCatchesUp(t: Tables, id: MailboxId, selecting: seq<Op>, es: seq<Event>, opts: SyncOptions)
    requires ValidTables(t) && id in t && opts.allowExpunge
    ensures
      var s := RunSession(Open(t, id, selecting), id, es);
      var s' := Step(s, id, Sync([], [], [], opts));
      && s'.tables == s.tables
      && UpToDate(s'.view, s.tables[id])
      && s'.client == Some(Uids(s.tables[id]))
  {
    OpenInStep(t, id, selecting);
    RunInStep(Open(t, id, selecting), id, es);
    var s := RunSession(Open(t, id, selecting), id, es);
    QuietSync(s, id, opts);
  }
}
