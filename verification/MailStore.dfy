/**
 The mailbox tables and the transactions that change them (apps/imap/src/store.ts). A transaction
 holds the mailbox row lock from start to commit, so each one is a single step from committed state
 to committed state; `Op` names the steps, `Commit` is what one does, and `MailStore` runs them on
 the tables in place.
*/
module MailStore {
  import opened Sets
  import opened Flags

  type Uid = nat
  type Modseq = nat
  type MailboxId = string

  datatype Content = Content(blob: string, size: nat, internalDate: int, sentAt: Option<int>)

  datatype Row = Row(modseq: Modseq, flags: seq<Flag>, content: Content)

  datatype FlagRow = FlagRow(uid: Uid, flags: seq<Flag>, modseq: Modseq)

  datatype Mailbox = Mailbox(
    uidnext: Uid,
    highestModseq: Modseq,
    messages: map<Uid, Row>,
    expunged: map<Uid, Modseq>)

  type Tables = map<MailboxId, Mailbox>

  ghost predicate ValidRow(mb: Mailbox, u: Uid, r: Row) {
    1 <= u < mb.uidnext && r.modseq <= mb.highestModseq && IsNormalized(r.flags)
  }

  ghost predicate Valid(mb: Mailbox) {
    && 1 <= mb.uidnext
    && (forall u :: u in mb.messages ==> ValidRow(mb, u, mb.messages[u]))
    && (forall u :: u in mb.expunged ==> u < mb.uidnext && mb.expunged[u] <= mb.highestModseq)
    && mb.messages.Keys !! mb.expunged.Keys
  }

  ghost predicate ValidTables(t: Tables) {
    forall id :: id in t ==> Valid(t[id])
  }

  // --- reads ------------------------------------------------------------------------------------

  function Uids(mb: Mailbox): (r: seq<Uid>) {
    Sorted(mb.messages.Keys)
  }

  function FlagRows(mb: Mailbox, uids: seq<Uid>): (r: seq<FlagRow>)
    requires forall u :: u in uids ==> u in mb.messages
    ensures |r| == |uids|
    ensures forall i :: 0 <= i < |uids| ==>
      r[i] == FlagRow(uids[i], mb.messages[uids[i]].flags, mb.messages[uids[i]].modseq)
  {
    seq(|uids|, i requires 0 <= i < |uids| =>
      FlagRow(uids[i], mb.messages[uids[i]].flags, mb.messages[uids[i]].modseq))
  }

  function ChangedUids(mb: Mailbox, since: Modseq): (r: set<Uid>) {
    set u | u in mb.messages && mb.messages[u].modseq > since
  }

  /** Rows with a modseq above `since`, in UID order. */
  function ChangedSince(mb: Mailbox, since: Modseq): (r: seq<FlagRow>) {
    FlagRows(mb, Sorted(ChangedUids(mb, since)))
  }

  ghost predicate IsRowOf(mb: Mailbox, c: FlagRow) {
    c.uid in mb.messages && c.flags == mb.messages[c.uid].flags && c.modseq == mb.messages[c.uid].modseq
  }

  lemma ChangedSinceMeaning(mb: Mailbox, since: Modseq)
    ensures forall c :: c in ChangedSince(mb, since) ==> IsRowOf(mb, c) && c.modseq > since
    ensures forall u :: u in mb.messages && mb.messages[u].modseq > since ==>
      FlagRow(u, mb.messages[u].flags, mb.messages[u].modseq) in ChangedSince(mb, since)
    ensures forall i, j :: 0 <= i < j < |ChangedSince(mb, since)| ==>
            ChangedSince(mb, since)[i].uid < ChangedSince(mb, since)[j].uid
  {
    var uids := Sorted(ChangedUids(mb, since));
    var rows := ChangedSince(mb, since);
    SortedAscending(ChangedUids(mb, since));
    forall u | u in mb.messages && mb.messages[u].modseq > since
      ensures FlagRow(u, mb.messages[u].flags, mb.messages[u].modseq) in rows
    {
      assert u in uids;
      var i :| 0 <= i < |uids| && uids[i] == u;
      assert rows[i] == FlagRow(u, mb.messages[u].flags, mb.messages[u].modseq);
    }
    forall i | 0 <= i < |rows| ensures IsRowOf(mb, rows[i]) && rows[i].modseq > since {
      assert uids[i] in uids;
    }
  }

  function ExpungedSince(mb: Mailbox, since: Modseq): (r: seq<Uid>) {
    Sorted(set u | u in mb.expunged && mb.expunged[u] > since)
  }

  function UidsUpTo(mb: Mailbox, maxUid: Uid): (r: set<Uid>) {
    set u | u in mb.messages && u <= maxUid
  }

  function CountUpTo(mb: Mailbox, maxUid: Uid): (r: nat) {
    |UidsUpTo(mb, maxUid)|
  }

  // --- transactions -----------------------------------------------------------------------------

  function Targets(mb: Mailbox, uids: seq<Uid>): (r: set<Uid>) {
    set u | u in mb.messages && u in uids
  }

  /** UNCHANGEDSINCE refuses this row (section 3.1.3 of RFC 7162). */
  predicate Refused(r: Row, unchangedSince: Option<Modseq>) {
    unchangedSince.Some? && r.modseq > unchangedSince.value
  }

  predicate Alters(r: Row, op: StoreOperation, flags: seq<Flag>, unchangedSince: Option<Modseq>) {
    !Refused(r, unchangedSince) && !SameFlags(ApplyFlags(r.flags, op, flags), r.flags)
  }

  function Altered(mb: Mailbox, uids: seq<Uid>, op: StoreOperation, flags: seq<Flag>,
          unchangedSince: Option<Modseq>): (r: set<Uid>) {
    set u | u in Targets(mb, uids) && Alters(mb.messages[u], op, flags, unchangedSince)
  }

  function RefusedUids(mb: Mailbox, uids: seq<Uid>, unchangedSince: Option<Modseq>): (r: set<Uid>) {
    set u | u in Targets(mb, uids) && Refused(mb.messages[u], unchangedSince)
  }

  function StoreFlagsTx(mb: Mailbox, uids: seq<Uid>, op: StoreOperation, flags: seq<Flag>,
          unchangedSince: Option<Modseq>): (r: Mailbox) {
    var altered := Altered(mb, uids, op, flags, unchangedSince);
    if altered == {} then mb
    else
      var modseq := mb.highestModseq + 1;
      mb.(highestModseq := modseq,
          messages := map u | u in mb.messages ::
            if u in altered then mb.messages[u].(flags := ApplyFlags(mb.messages[u].flags, op, flags), modseq := modseq)
            else mb.messages[u])
  }

  /** recordExpunged: a UID already logged keeps its first entry. */
  function RecordExpunged(log: map<Uid, Modseq>, uids: set<Uid>, modseq: Modseq): (r: map<Uid, Modseq>) {
    (map u | u in uids :: modseq) + log
  }

  function Doomed(mb: Mailbox, only: Option<seq<Uid>>): (r: set<Uid>) {
    set u | u in mb.messages && DELETED in mb.messages[u].flags && (only.Some? ==> u in only.value)
  }

  function RemoveTx(mb: Mailbox, gone: set<Uid>, modseq: Modseq): (r: Mailbox) {
    mb.(highestModseq := modseq, messages := mb.messages - gone, expunged := RecordExpunged(mb.expunged, gone, modseq))
  }

  function ExpungeTx(mb: Mailbox, only: Option<seq<Uid>>): (r: Mailbox) {
    var gone := Doomed(mb, only);
    if gone == {} then mb else RemoveTx(mb, gone, mb.highestModseq + 1)
  }

  /** fileLocalMessage: `uid = uidnext`, `modseq = highestModseq + 1` (packages/dsn). */
  function FileTx(mb: Mailbox, flags: seq<Flag>, content: Content): (r: Mailbox) {
    var modseq := mb.highestModseq + 1;
    mb.(uidnext := mb.uidnext + 1, highestModseq := modseq,
      messages := mb.messages[mb.uidnext := Row(modseq, flags, content)])
  }

  function FileAll(mb: Mailbox, rows: seq<Row>): (r: Mailbox)
    decreases |rows|
  {
    if rows == [] then mb else FileAll(FileTx(mb, rows[0].flags, rows[0].content), rows[1..])
  }

  function RowsOf(mb: Mailbox, uids: seq<Uid>): (r: seq<Row>)
    requires forall u :: u in uids ==> u in mb.messages
  {
    seq(|uids|, i requires 0 <= i < |uids| => mb.messages[uids[i]])
  }

  /** The rows a MOVE re-homes: consecutive UIDs from `uidnext`, one modseq for all. */
  function Rehome(mb: Mailbox, rows: seq<Row>, modseq: Modseq): (r: Mailbox)
    decreases |rows|
  {
    if rows == [] then mb
    else Rehome(mb.(uidnext := mb.uidnext + 1, messages := mb.messages[mb.uidnext := rows[0].(modseq := modseq)]),
      rows[1..], modseq)
  }

  function ArriveTx(mb: Mailbox, rows: seq<Row>, modseq: Modseq): (r: Mailbox) {
    Rehome(mb, rows, modseq).(highestModseq := modseq)
  }

  datatype Op =
    | StoreFlags(id: MailboxId, uids: seq<Uid>, op: StoreOperation, flags: seq<Flag>, unchangedSince: Option<Modseq>)
    | Expunge(id: MailboxId, only: Option<seq<Uid>>)
    | Copy(source: MailboxId, uids: seq<Uid>, target: MailboxId)
    | Move(source: MailboxId, uids: seq<Uid>, target: MailboxId)
    | Append(id: MailboxId, flags: seq<Flag>, content: Content)

  function Max(a: nat, b: nat): nat { if a > b then a else b }

  function MoveTx(t: Tables, source: MailboxId, uids: seq<Uid>, target: MailboxId): (r: Tables)
    requires source in t && target in t
  {
    var src, tgt := t[source], t[target];
    var gone := Targets(src, uids);
    if gone == {} then t
    else
      var modseq := Max(tgt.highestModseq, src.highestModseq) + 1;
      var rows := RowsOf(src, Sorted(gone));
      if source == target then t[source := RemoveTx(ArriveTx(src, rows, modseq), gone, modseq)]
      else t[target := ArriveTx(tgt, rows, modseq)][source := RemoveTx(src, gone, modseq)]
  }

  /** The committed effect of one transaction; a mailbox that is gone changes nothing. */
  function Commit(t: Tables, op: Op): (r: Tables)
    ensures r.Keys == t.Keys
  {
    match op
    case StoreFlags(id, uids, o, flags, since) =>
      if id in t then t[id := StoreFlagsTx(t[id], uids, o, flags, since)] else t
    case Expunge(id, only) =>
      if id in t then t[id := ExpungeTx(t[id], only)] else t
    case Copy(source, uids, target) =>
      if source in t && target in t then t[target := FileAll(t[target],
        RowsOf(t[source], Sorted(Targets(t[source], uids))))] else t
    case Move(source, uids, target) =>
      if source in t && target in t then MoveTx(t, source, uids, target) else t
    case Append(id, flags, content) =>
      if id in t then t[id := FileTx(t[id], NormalizeFlags(flags), content)] else t
  }

  function Run(t: Tables, ops: seq<Op>): (r: Tables)
    ensures r.Keys == t.Keys
    decreases |ops|
  {
    if ops == [] then t else Run(Commit(t, ops[0]), ops[1..])
  }

  // --- what every run keeps ---------------------------------------------------------------------

  /** `b`'s row for `u` against `a`: untouched, or stamped after everything `a` had seen. */
  ghost predicate RowLater(a: Mailbox, b: Mailbox, u: Uid)
    requires u in b.messages
  {
    if u in a.messages then
      b.messages[u] == a.messages[u] ||
      (b.messages[u].modseq > a.highestModseq && b.messages[u].content == a.messages[u].content)
    else
      u >= a.uidnext && b.messages[u].modseq > a.highestModseq
  }

  /**
   `b` is a mailbox state that `a` can have become. Counters only grow; no change goes without a new
   highest modseq; a UID keeps naming the same message, and one that leaves is logged for good.
  */
  ghost predicate Later(a: Mailbox, b: Mailbox) {
    && a.uidnext <= b.uidnext
    && a.highestModseq <= b.highestModseq
    && (a.highestModseq == b.highestModseq ==> a == b)
    && (forall u :: u in b.messages ==> RowLater(a, b, u))
    && (forall u :: u in a.messages && u !in b.messages ==> u in b.expunged && b.expunged[u] > a.highestModseq)
    && (forall u :: u in a.expunged ==> u in b.expunged && b.expunged[u] == a.expunged[u])
    && (forall u :: u in b.expunged && u !in a.expunged ==> b.expunged[u] > a.highestModseq)
  }

  ghost predicate LaterTables(a: Tables, b: Tables) {
    a.Keys == b.Keys && forall id :: id in a ==> Later(a[id], b[id])
  }

  lemma LaterTransitive(a: Mailbox, b: Mailbox, c: Mailbox)
    requires Valid(a) && Valid(b) && Valid(c)
    requires Later(a, b) && Later(b, c)
    ensures Later(a, c)
  {
    forall u | u in c.messages ensures RowLater(a, c, u) {
      assert RowLater(b, c, u);
      if u in b.messages { assert RowLater(a, b, u); }
    }
    forall u | u in a.messages && u !in c.messages ensures u in c.expunged && c.expunged[u] > a.highestModseq {
      if u in b.messages { assert RowLater(a, b, u); }
    }
  }

  lemma StoreFlagsLater(mb: Mailbox, uids: seq<Uid>, op: StoreOperation, flags: seq<Flag>,
          unchangedSince: Option<Modseq>)
    requires Valid(mb)
    ensures var r := StoreFlagsTx(mb, uids, op, flags, unchangedSince); Valid(r) && Later(mb, r)
  {
    forall u | u in mb.messages ensures IsNormalized(ApplyFlags(mb.messages[u].flags, op, flags)) {
      assert ValidRow(mb, u, mb.messages[u]);
      ApplyFlagsMeaning(mb.messages[u].flags, op, flags);
    }
    var r := StoreFlagsTx(mb, uids, op, flags, unchangedSince);
    forall u | u in r.messages ensures ValidRow(r, u, r.messages[u]) {
      assert ValidRow(mb, u, mb.messages[u]);
    }
  }

  lemma RemoveLater(mb: Mailbox, gone: set<Uid>, modseq: Modseq)
    requires Valid(mb) && gone <= mb.messages.Keys && modseq > mb.highestModseq
    ensures var r := RemoveTx(mb, gone, modseq); Valid(r) && Later(mb, r)
  {
    var r := RemoveTx(mb, gone, modseq);
    forall u | u in r.messages ensures ValidRow(r, u, r.messages[u]) {
      assert ValidRow(mb, u, mb.messages[u]);
    }
    forall u | u in gone ensures u < mb.uidnext {
      assert ValidRow(mb, u, mb.messages[u]);
    }
  }

  lemma FileLater(mb: Mailbox, flags: seq<Flag>, content: Content)
    requires Valid(mb) && IsNormalized(flags)
    ensures var r := FileTx(mb, flags, content); Valid(r) && Later(mb, r)
  {
    var r := FileTx(mb, flags, content);
    forall u | u in mb.messages ensures ValidRow(r, u, r.messages[u]) && u != mb.uidnext {
      assert ValidRow(mb, u, mb.messages[u]);
    }
  }

  lemma {:induction false} FileAllLater(mb: Mailbox, rows: seq<Row>)
    requires Valid(mb) && forall r :: r in rows ==> IsNormalized(r.flags)
    ensures var r := FileAll(mb, rows); Valid(r) && Later(mb, r)
    decreases |rows|
  {
    if rows != [] {
      assert rows[0] in rows;
      FileLater(mb, rows[0].flags, rows[0].content);
      var next := FileTx(mb, rows[0].flags, rows[0].content);
      assert forall r :: r in rows[1..] ==> r in rows;
      FileAllLater(next, rows[1..]);
      LaterTransitive(mb, next, FileAll(next, rows[1..]));
    }
  }

  /** What arrives sits at consecutive UIDs from the old `uidnext`; nothing else moves. */
  lemma {:induction false} RehomeMeaning(mb: Mailbox, rows: seq<Row>, modseq: Modseq)
    requires forall u :: u in mb.messages ==> u < mb.uidnext
    ensures var r := Rehome(mb, rows, modseq);
      && r == mb.(uidnext := mb.uidnext + |rows|, messages := r.messages)
      && (forall u :: u in mb.messages ==> u in r.messages && r.messages[u] == mb.messages[u])
      && (forall u :: u in r.messages && u !in mb.messages ==>
            mb.uidnext <= u < r.uidnext && r.messages[u] == rows[u - mb.uidnext].(modseq := modseq))
      && (forall u :: mb.uidnext <= u < mb.uidnext + |rows| ==> u in r.messages)
    decreases |rows|
  {
    if rows != [] {
      var next := mb.(uidnext := mb.uidnext + 1, messages := mb.messages[mb.uidnext := rows[0].(modseq := modseq)]);
      RehomeMeaning(next, rows[1..], modseq);
      assert mb.uidnext in next.messages;
    }
  }

  lemma ArriveLater(mb: Mailbox, rows: seq<Row>, modseq: Modseq)
    requires Valid(mb) && modseq > mb.highestModseq
    requires forall r :: r in rows ==> IsNormalized(r.flags)
    ensures var r := ArriveTx(mb, rows, modseq); Valid(r) && Later(mb, r)
  {
    forall u | u in mb.messages ensures u < mb.uidnext {
      assert ValidRow(mb, u, mb.messages[u]);
    }
    RehomeMeaning(mb, rows, modseq);
    var r := ArriveTx(mb, rows, modseq);
    forall u | u in r.messages ensures ValidRow(r, u, r.messages[u]) && RowLater(mb, r, u) {
      if u in mb.messages {
        assert ValidRow(mb, u, mb.messages[u]);
      } else {
        assert rows[u - mb.uidnext] in rows;
      }
    }
  }

  lemma RowsNormalized(mb: Mailbox, uids: seq<Uid>)
    requires Valid(mb) && forall u :: u in uids ==> u in mb.messages
    ensures forall r :: r in RowsOf(mb, uids) ==> IsNormalized(r.flags)
  {
    forall r | r in RowsOf(mb, uids) ensures IsNormalized(r.flags) {
      var i :| 0 <= i < |uids| && r == mb.messages[uids[i]];
      assert ValidRow(mb, uids[i], mb.messages[uids[i]]);
    }
  }

  /** A MOVE within one mailbox: the old UIDs leave and new ones arrive under one modseq. */
  lemma MoveWithinLater(mb: Mailbox, rows: seq<Row>, gone: set<Uid>, modseq: Modseq)
    requires Valid(mb) && gone <= mb.messages.Keys && modseq > mb.highestModseq
    requires forall r :: r in rows ==> IsNormalized(r.flags)
    ensures var r := RemoveTx(ArriveTx(mb, rows, modseq), gone, modseq); Valid(r) && Later(mb, r)
  {
    var mid := ArriveTx(mb, rows, modseq);
    ArriveLater(mb, rows, modseq);
    var r := RemoveTx(mid, gone, modseq);
    forall u | u in r.messages ensures ValidRow(r, u, r.messages[u]) && RowLater(mb, r, u) {
      assert ValidRow(mid, u, mid.messages[u]) && RowLater(mb, mid, u);
    }
    forall u | u in gone ensures u < mb.uidnext {
      assert ValidRow(mb, u, mb.messages[u]);
    }
  }

  lemma UpdateLater(t: Tables, id: MailboxId, mb: Mailbox)
    requires ValidTables(t) && id in t
    requires Valid(mb) && Later(t[id], mb)
    ensures ValidTables(t[id := mb]) && LaterTables(t, t[id := mb])
  {
  }

  lemma CopyLater(t: Tables, source: MailboxId, uids: seq<Uid>, target: MailboxId)
    requires ValidTables(t)
    ensures var r := Commit(t, Copy(source, uids, target)); ValidTables(r) && LaterTables(t, r)
  {
    if source in t && target in t {
      var from := Sorted(Targets(t[source], uids));
      RowsNormalized(t[source], from);
      FileAllLater(t[target], RowsOf(t[source], from));
      UpdateLater(t, target, FileAll(t[target], RowsOf(t[source], from)));
    }
  }

  lemma RehomedRow(mb: Mailbox, rows: seq<Row>, modseq: Modseq, i: nat)
    requires Valid(mb) && i < |rows|
    ensures var r := ArriveTx(mb, rows, modseq);
      mb.uidnext + i in r.messages && r.messages[mb.uidnext + i] == rows[i].(modseq := modseq)
      && r.expunged == mb.expunged && r.highestModseq == modseq
  {
    forall u | u in mb.messages ensures u < mb.uidnext {
      assert ValidRow(mb, u, mb.messages[u]);
    }
    RehomeMeaning(mb, rows, modseq);
    var u := mb.uidnext + i;
    assert u in Rehome(mb, rows, modseq).messages;
  }

  /** The row at `u` left for the i-th new UID of `tgt`, which keeps it through the removal. */
  ghost predicate Rehomed(src: Mailbox, tgt: Mailbox, u: Uid, i: nat, src': Mailbox, tgt': Mailbox)
    requires u in src.messages
  {
    var u' := tgt.uidnext + i;
    && u' in tgt'.messages
    && tgt'.messages[u'] == src.messages[u].(modseq := tgt'.highestModseq)
    && tgt'.highestModseq > tgt.highestModseq
    && u !in src'.messages
    && u in src'.expunged && src'.expunged[u] == src'.highestModseq == tgt'.highestModseq
  }

  lemma RemovedRow(mb: Mailbox, gone: set<Uid>, modseq: Modseq, u: Uid)
    requires u in gone && u !in mb.expunged
    ensures var r := RemoveTx(mb, gone, modseq); u !in r.messages && u in r.expunged && r.expunged[u] == modseq
  {
  }

  lemma BelowUidnext(mb: Mailbox, u: Uid)
    requires Valid(mb) && u in mb.messages
    ensures u < mb.uidnext && u !in mb.expunged
  {
    assert ValidRow(mb, u, mb.messages[u]);
  }

  lemma RehomedWithin(mb: Mailbox, from: seq<Uid>, gone: set<Uid>, modseq: Modseq, i: nat)
    requires Valid(mb) && gone <= mb.messages.Keys && modseq > mb.highestModseq
    requires i < |from| && (forall u :: u in from ==> u in mb.messages) && from[i] in gone
    ensures var r := RemoveTx(ArriveTx(mb, RowsOf(mb, from), modseq), gone, modseq); Rehomed(mb, mb, from[i], i, r, r)
  {
    var rows := RowsOf(mb, from);
    RehomedRow(mb, rows, modseq, i);
    BelowUidnext(mb, from[i]);
    RemovedRow(ArriveTx(mb, rows, modseq), gone, modseq, from[i]);
    var u' := mb.uidnext + i;
    assert u' !in gone by { assert u' in mb.messages ==> ValidRow(mb, u', mb.messages[u']); }
  }

  lemma RehomedAcross(src: Mailbox, tgt: Mailbox, from: seq<Uid>, gone: set<Uid>, modseq: Modseq, i: nat)
    requires Valid(src) && Valid(tgt) && modseq > tgt.highestModseq
    requires i < |from| && (forall u :: u in from ==> u in src.messages) && from[i] in gone
    ensures Rehomed(src, tgt, from[i], i, RemoveTx(src, gone, modseq), ArriveTx(tgt, RowsOf(src, from), modseq))
  {
    RehomedRow(tgt, RowsOf(src, from), modseq, i);
    BelowUidnext(src, from[i]);
    RemovedRow(src, gone, modseq, from[i]);
  }

  /**
   MOVE loses and invents nothing: the i-th message named by COPYUID is in the target under its new
   UID with its flags and content, is gone from the source, and is logged there at the new modseq.
  */
  lemma MoveConserves(t: Tables, source: MailboxId, uids: seq<Uid>, target: MailboxId, i: nat)
    requires ValidTables(t) && source in t && target in t
    requires i < |Sorted(Targets(t[source], uids))|
    ensures Sorted(Targets(t[source], uids))[i] in t[source].messages
    ensures var r := MoveTx(t, source, uids, target);
      Rehomed(t[source], t[target], Sorted(Targets(t[source], uids))[i], i, r[source], r[target])
  {
    var src, tgt := t[source], t[target];
    assert Valid(src) && Valid(tgt);
    var gone := Targets(src, uids);
    var from := Sorted(gone);
    assert from[i] in gone by { assert from[i] in from; }
    assert gone <= src.messages.Keys && forall u :: u in from ==> u in gone;
    hide ValidTables, Valid, ArriveTx, RemoveTx, Rehomed, Sorted, Targets, RowsOf;
    var modseq := Max(tgt.highestModseq, src.highestModseq) + 1;
    if source == target {
      RehomedWithin(src, from, gone, modseq, i);
    } else {
      RehomedAcross(src, tgt, from, gone, modseq, i);
    }
  }

  /** A message that a MOVE does not name stays as it is, wherever it sits. */
  lemma MoveKeepsOthers(t: Tables, source: MailboxId, uids: seq<Uid>, target: MailboxId, id: MailboxId, u: Uid)
    requires ValidTables(t) && source in t && target in t && id in t && u in t[id].messages
    requires !(id == source && u in uids)
    ensures var r := MoveTx(t, source, uids, target);
      id in r && u in r[id].messages && r[id].messages[u] == t[id].messages[u]
  {
    assert Valid(t[source]) && Valid(t[target]);
    var gone := Targets(t[source], uids);
    if gone != {} {
      var modseq := Max(t[target].highestModseq, t[source].highestModseq) + 1;
      var rows := RowsOf(t[source], Sorted(gone));
      ArriveKeeps(t[target], rows, modseq);
      hide ValidTables, ArriveTx, Sorted;
    }
  }

  lemma ArriveKeeps(mb: Mailbox, rows: seq<Row>, modseq: Modseq)
    requires Valid(mb)
    ensures forall u :: u in mb.messages ==>
      u in ArriveTx(mb, rows, modseq).messages && ArriveTx(mb, rows, modseq).messages[u] == mb.messages[u]
  {
    forall u | u in mb.messages ensures u < mb.uidnext {
      assert ValidRow(mb, u, mb.messages[u]);
    }
    RehomeMeaning(mb, rows, modseq);
  }

  /** The rows filed sit at consecutive UIDs and modseqs with their flags and content; nothing else moves. */
  lemma {:induction false} FileAllMeaning(mb: Mailbox, rows: seq<Row>)
    requires forall u :: u in mb.messages ==> u < mb.uidnext
    ensures var r := FileAll(mb, rows);
      && r.uidnext == mb.uidnext + |rows| && r.highestModseq == mb.highestModseq + |rows| && r.expunged == mb.expunged
      && (forall u :: u in mb.messages ==> u in r.messages && r.messages[u] == mb.messages[u])
      && (forall u :: u in r.messages && u !in mb.messages ==> mb.uidnext <= u < r.uidnext)
      && (forall u :: mb.uidnext <= u < mb.uidnext + |rows| ==>
            u in r.messages && r.messages[u] == FiledRow(mb, rows, u - mb.uidnext))
    decreases |rows|
  {
    if rows != [] {
      var next, rest := FileTx(mb, rows[0].flags, rows[0].content), rows[1..];
      FileAllMeaning(next, rest);
      var r := FileAll(mb, rows);
      assert mb.uidnext in next.messages;
      forall u | mb.uidnext <= u < mb.uidnext + |rows|
        ensures u in r.messages && r.messages[u] == FiledRow(mb, rows, u - mb.uidnext)
      {
        assert u > mb.uidnext ==> rest[u - next.uidnext] == rows[u - mb.uidnext];
      }
    }
  }

  function FiledRow(mb: Mailbox, rows: seq<Row>, i: nat): (r: Row)
    requires i < |rows|
  {
    Row(mb.highestModseq + 1 + i, rows[i].flags, rows[i].content)
  }

  /** What the i-th message named by COPYUID is in the target. */
  ghost predicate Copied(src: Mailbox, tgt: Mailbox, u: Uid, i: nat, tgt': Mailbox)
    requires u in src.messages
  {
    var u' := tgt.uidnext + i;
    && u' in tgt'.messages && tgt'.messages[u'].flags == src.messages[u].flags
    && tgt'.messages[u'].content == src.messages[u].content && tgt'.messages[u'].modseq == tgt.highestModseq + 1 + i
  }

  /**
   COPY loses and invents nothing: the i-th message named by COPYUID is in the target with its flags and
   content under its own UID and modseq, those are all that is new there, and nothing else changes.
  */
  lemma CopyConserves(t: Tables, source: MailboxId, uids: seq<Uid>, target: MailboxId)
    requires ValidTables(t) && source in t && target in t
    ensures var from, r := Sorted(Targets(t[source], uids)), Commit(t, Copy(source, uids, target));
      && (forall i :: 0 <= i < |from| ==>
            from[i] in t[source].messages && Copied(t[source], t[target], from[i], i, r[target]))
      && (forall u :: u in t[target].messages ==>
            u in r[target].messages && r[target].messages[u] == t[target].messages[u])
      && (forall u :: u in r[target].messages && u !in t[target].messages ==>
            t[target].uidnext <= u < t[target].uidnext + |from|)
      && r[target].uidnext == t[target].uidnext + |from| && r[target].expunged == t[target].expunged
      && forall id :: id in t && id != target ==> r[id] == t[id]
  {
    var from := Sorted(Targets(t[source], uids));
    assert forall u :: u in from ==> u in Targets(t[source], uids);
    assert Valid(t[target]);
    hide Valid, Sorted, FileAll, Copied;
    CopiesOf(t[source], t[target], from);
  }

  lemma CopiesOf(src: Mailbox, tgt: Mailbox, from: seq<Uid>)
    requires Valid(tgt) && forall u :: u in from ==> u in src.messages
    ensures var r := FileAll(tgt, RowsOf(src, from));
      && (forall i :: 0 <= i < |from| ==> from[i] in src.messages && Copied(src, tgt, from[i], i, r))
      && (forall u :: u in tgt.messages ==> u in r.messages && r.messages[u] == tgt.messages[u])
      && (forall u :: u in r.messages && u !in tgt.messages ==> tgt.uidnext <= u < tgt.uidnext + |from|)
      && r.uidnext == tgt.uidnext + |from| && r.expunged == tgt.expunged
  {
    forall u | u in tgt.messages ensures u < tgt.uidnext {
      assert ValidRow(tgt, u, tgt.messages[u]);
    }
    FileAllMeaning(tgt, RowsOf(src, from));
    hide FileAll;
    forall i | 0 <= i < |from|
      ensures from[i] in src.messages && Copied(src, tgt, from[i], i, FileAll(tgt, RowsOf(src, from)))
    {
      assert from[i] in from;
      assert tgt.uidnext <= tgt.uidnext + i < tgt.uidnext + |from|;
    }
  }

  /**
   APPEND: at the UID it answers the message has the content given and the flags given but `\Recent`, a new
   modseq, and nothing else changes.
  */
  lemma AppendFiles(t: Tables, id: MailboxId, flags: seq<Flag>, content: Content)
    requires ValidTables(t) && id in t
    ensures var u, r := t[id].uidnext, Commit(t, Append(id, flags, content));
      && u !in t[id].messages && u in r[id].messages && r[id].messages[u].content == content
      && IsNormalized(r[id].messages[u].flags)
      && Folded(r[id].messages[u].flags) == Folded(flags) - {Lower(RECENT)}
      && r[id].messages[u].modseq == r[id].highestModseq == t[id].highestModseq + 1
      && r[id].messages == t[id].messages[u := r[id].messages[u]] && r[id].expunged == t[id].expunged
      && r[id].uidnext == u + 1 && forall x :: x in t && x != id ==> r[x] == t[x]
  {
    NormalizeMeaning(flags);
    var u := t[id].uidnext;
    assert u in t[id].messages ==> ValidRow(t[id], u, t[id].messages[u]);
  }

  /**
   EXPUNGE: a message leaves if and only if it has `\Deleted` in some spelling and is named where names are
   given; it is then logged under a new modseq, and a message that stays stays as it is.
  */
  lemma ExpungeExact(mb: Mailbox, only: Option<seq<Uid>>, u: Uid)
    requires Valid(mb) && u in mb.messages
    ensures var r := ExpungeTx(mb, only);
      && (u !in r.messages <==> Lower(DELETED) in Folded(mb.messages[u].flags) && (only.Some? ==> u in only.value))
      && (u in r.messages ==> r.messages[u] == mb.messages[u])
      && (u !in r.messages ==> u in r.expunged && r.expunged[u] == mb.highestModseq + 1)
  {
    assert ValidRow(mb, u, mb.messages[u]);
    DeletedIsSystem();
    SystemFlagExact(mb.messages[u].flags, DELETED);
    HasFlagFolded(mb.messages[u].flags, DELETED);
    assert u in Doomed(mb, only) <==> DELETED in mb.messages[u].flags && (only.Some? ==> u in only.value);
  }

  /**
   STORE: a message changes if and only if it is named, is not stamped after UNCHANGEDSINCE, and the operation
   changes its case-folded flags; it then has the flags the operation says, and a new modseq.
  */
  lemma StoreExact(mb: Mailbox, uids: seq<Uid>, op: StoreOperation, flags: seq<Flag>, unchangedSince: Option<Modseq>,
          u: Uid)
    requires Valid(mb) && u in mb.messages
    ensures var r, was := StoreFlagsTx(mb, uids, op, flags, unchangedSince), mb.messages[u];
      var wanted := FoldedOp(Folded(was.flags), op, Folded(flags));
      && u in r.messages
      && (r.messages[u] != was <==>
            && u in uids && (unchangedSince.Some? ==> was.modseq <= unchangedSince.value)
            && wanted != Folded(was.flags))
      && (r.messages[u] != was ==>
            && Folded(r.messages[u].flags) == wanted && r.messages[u].modseq == mb.highestModseq + 1
            && r.messages[u].content == was.content)
  {
    var was := mb.messages[u];
    assert ValidRow(mb, u, was);
    ApplyFlagsMeaning(was.flags, op, flags);
    SameFlagsExact(ApplyFlags(was.flags, op, flags), was.flags);
    assert u in Altered(mb, uids, op, flags, unchangedSince) <==>
           u in uids && Alters(was, op, flags, unchangedSince);
    hide ApplyFlags, SameFlags, Folded;
  }

  lemma UpdateBothLater(t: Tables, id: MailboxId, mb: Mailbox, id': MailboxId, mb': Mailbox)
    requires ValidTables(t) && id in t && id' in t && id != id'
    requires Valid(mb) && Later(t[id], mb)
    requires Valid(mb') && Later(t[id'], mb')
    ensures ValidTables(t[id := mb][id' := mb']) && LaterTables(t, t[id := mb][id' := mb'])
  {
  }

  lemma MoveAcrossLater(t: Tables, source: MailboxId, target: MailboxId, rows: seq<Row>, gone: set<Uid>, modseq: Modseq)
    requires ValidTables(t) && source in t && target in t && source != target
    requires gone <= t[source].messages.Keys
    requires modseq > t[source].highestModseq && modseq > t[target].highestModseq
    requires forall r :: r in rows ==> IsNormalized(r.flags)
    ensures var r := t[target := ArriveTx(t[target], rows, modseq)][source := RemoveTx(t[source], gone, modseq)];
      ValidTables(r) && LaterTables(t, r)
  {
    ArriveLater(t[target], rows, modseq);
    RemoveLater(t[source], gone, modseq);
    UpdateBothLater(t, target, ArriveTx(t[target], rows, modseq), source, RemoveTx(t[source], gone, modseq));
  }

  lemma MoveLater(t: Tables, source: MailboxId, uids: seq<Uid>, target: MailboxId)
    requires ValidTables(t) && source in t && target in t
    requires Targets(t[source], uids) != {}
    ensures var r := MoveTx(t, source, uids, target); ValidTables(r) && LaterTables(t, r)
  {
    var gone := Targets(t[source], uids);
    var modseq := Max(t[target].highestModseq, t[source].highestModseq) + 1;
    var rows := RowsOf(t[source], Sorted(gone));
    RowsNormalized(t[source], Sorted(gone));
    assert gone <= t[source].messages.Keys;
    var r := MoveTx(t, source, uids, target);
    if source == target {
      assert r == t[source := RemoveTx(ArriveTx(t[source], rows, modseq), gone, modseq)];
      MoveWithinLater(t[source], rows, gone, modseq);
      UpdateLater(t, source, RemoveTx(ArriveTx(t[source], rows, modseq), gone, modseq));
    } else {
      assert r == t[target := ArriveTx(t[target], rows, modseq)][source := RemoveTx(t[source], gone, modseq)];
      MoveAcrossLater(t, source, target, rows, gone, modseq);
    }
  }

  lemma ExpungeLater(mb: Mailbox, only: Option<seq<Uid>>)
    requires Valid(mb)
    ensures Valid(ExpungeTx(mb, only)) && Later(mb, ExpungeTx(mb, only))
  {
    if Doomed(mb, only) != {} {
      RemoveLater(mb, Doomed(mb, only), mb.highestModseq + 1);
    }
  }

  lemma AppendLater(mb: Mailbox, flags: seq<Flag>, content: Content)
    requires Valid(mb)
    ensures var r := FileTx(mb, NormalizeFlags(flags), content); Valid(r) && Later(mb, r)
  {
    NormalizeMeaning(flags);
    FileLater(mb, NormalizeFlags(flags), content);
  }

  lemma LaterTablesReflexive(t: Tables)
    ensures LaterTables(t, t)
  {
  }

  /** A transaction on one mailbox. */
  lemma OneMailboxLater(t: Tables, op: Op, id: MailboxId)
    requires ValidTables(t) && id in t
    requires (op.StoreFlags? || op.Expunge? || op.Append?) && op.id == id
    ensures ValidTables(Commit(t, op)) && LaterTables(t, Commit(t, op))
  {
    var mb := Commit(t, op)[id];
    assert Valid(mb) && Later(t[id], mb) by {
      match op
      case StoreFlags(_, uids, o, flags, since) => StoreFlagsLater(t[id], uids, o, flags, since);
      case Expunge(_, only) => ExpungeLater(t[id], only);
      case Append(_, flags, content) => AppendLater(t[id], flags, content);
    }
    assert Commit(t, op) == t[id := mb];
    UpdateLater(t, id, mb);
  }

  lemma CommitLater(t: Tables, op: Op)
    requires ValidTables(t)
    ensures ValidTables(Commit(t, op)) && LaterTables(t, Commit(t, op))
  {
    if Commit(t, op) == t {
      LaterTablesReflexive(t);
    } else if op.Copy? {
      CopyLater(t, op.source, op.uids, op.target);
    } else if op.Move? {
      MoveLater(t, op.source, op.uids, op.target);
    } else {
      OneMailboxLater(t, op, op.id);
    }
  }

  /** Every run keeps every mailbox valid and only moves it to a later state. */
  lemma {:induction false} RunLater(t: Tables, ops: seq<Op>)
    requires ValidTables(t)
    ensures ValidTables(Run(t, ops)) && LaterTables(t, Run(t, ops))
    decreases |ops|
  {
    if ops != [] {
      CommitLater(t, ops[0]);
      var mid := Commit(t, ops[0]);
      RunLater(mid, ops[1..]);
      forall id | id in t ensures Later(t[id], Run(t, ops)[id]) {
        LaterTransitive(t[id], mid[id], Run(mid, ops[1..])[id]);
      }
    }
  }

  lemma {:induction false} RunSplit(t: Tables, before: seq<Op>, after: seq<Op>)
    ensures Run(t, before + after) == Run(Run(t, before), after)
    decreases |before|
  {
    if before == [] {
      assert before + after == after;
    } else {
      assert (before + after)[1..] == before[1..] + after;
      RunSplit(Commit(t, before[0]), before[1..], after);
    }
  }

  /**
   No UID is reused: once a UID has named a message in a mailbox, at every later point of every run
   it names that same message or no message, and once gone it stays in the expunged log.
  */
  lemma UidNeverReused(t: Tables, before: seq<Op>, after: seq<Op>, id: MailboxId, u: Uid)
    requires ValidTables(t) && id in t
    requires u in Run(t, before)[id].messages || u in Run(t, before)[id].expunged
    ensures id in Run(t, before + after)
    ensures var then_ := Run(t, before)[id]; var now := Run(t, before + after)[id];
      && u < now.uidnext
      && (u in now.messages ==> u in then_.messages && now.messages[u].content == then_.messages[u].content)
      && (u !in now.messages ==> u in now.expunged)
      && (u in then_.expunged ==> u !in now.messages)
  {
    RunLater(t, before);
    RunLater(Run(t, before), after);
    RunSplit(t, before, after);
    var then_ := Run(t, before)[id];
    var now := Run(t, before + after)[id];
    assert Later(then_, now);
    if u in now.messages {
      assert RowLater(then_, now, u);
      if u in then_.messages { assert ValidRow(then_, u, then_.messages[u]); }
    }
    if u in then_.messages { assert ValidRow(then_, u, then_.messages[u]); }
  }

  // --- delta equals snapshot --------------------------------------------------------------------

  ghost function FlagsOf(mb: Mailbox): map<Uid, seq<Flag>> {
    map u | u in mb.messages :: mb.messages[u].flags
  }

  function ApplyChanged(base: map<Uid, seq<Flag>>, changed: seq<FlagRow>): (r: map<Uid, seq<Flag>>)
    decreases |changed|
  {
    if changed == [] then base else ApplyChanged(base[changed[0].uid := changed[0].flags], changed[1..])
  }

  /** A QRESYNC client's catch-up: drop what vanished, then take each changed row. */
  function ApplyDelta(base: map<Uid, seq<Flag>>, changed: seq<FlagRow>, gone: seq<Uid>): (r: map<Uid, seq<Flag>>) {
    ApplyChanged(base - (set u | u in gone), changed)
  }

  lemma {:induction false} ApplyChangedMeaning(base: map<Uid, seq<Flag>>, mb: Mailbox, uids: seq<Uid>)
    requires forall u :: u in uids ==> u in mb.messages
    ensures var r := ApplyChanged(base, FlagRows(mb, uids));
      && (forall u :: u in r <==> u in base || u in uids)
      && (forall u :: u in r ==> r[u] == if u in uids then mb.messages[u].flags else base[u])
    decreases |uids|
  {
    if uids != [] {
      var rows, rest := FlagRows(mb, uids), uids[1..];
      assert rows[1..] == FlagRows(mb, rest);
      assert forall u :: u in uids <==> u == uids[0] || u in rest;
      ApplyChangedMeaning(base[uids[0] := rows[0].flags], mb, rest);
    }
  }

  /** A base that has every unchanged row, and nothing else but what was expunged, catches up. */
  lemma DeltaFrom(base: map<Uid, seq<Flag>>, b: Mailbox, m: Modseq)
    requires forall u :: u in b.messages && b.messages[u].modseq <= m ==>
      u in base && base[u] == b.messages[u].flags && u !in ExpungedSince(b, m)
    requires forall u :: u in base && u !in b.messages ==> u in ExpungedSince(b, m)
    ensures ApplyDelta(base, ChangedSince(b, m), ExpungedSince(b, m)) == FlagsOf(b)
  {
    var uids := Sorted(ChangedUids(b, m));
    var kept := base - (set u | u in ExpungedSince(b, m));
    ApplyChangedMeaning(kept, b, uids);
    var r := ApplyChanged(kept, FlagRows(b, uids));
    forall u: Uid ensures u in r <==> u in b.messages {
      assert u in kept <==> u in base && u !in ExpungedSince(b, m);
    }
    forall u | u in r ensures r[u] == b.messages[u].flags {
      if u !in uids { assert u in kept && b.messages[u].modseq <= m; }
    }
    assert r == FlagsOf(b);
  }

  lemma KeptOrChanged(a: Mailbox, b: Mailbox, u: Uid)
    requires Valid(a) && Valid(b) && Later(a, b)
    ensures u in b.messages && b.messages[u].modseq <= a.highestModseq ==>
      u in a.messages && a.messages[u] == b.messages[u] && u !in ExpungedSince(b, a.highestModseq)
    ensures u in a.messages && u !in b.messages ==> u in ExpungedSince(b, a.highestModseq)
  {
    if u in b.messages { assert RowLater(a, b, u); }
  }

  lemma DeltaOfLater(a: Mailbox, b: Mailbox)
    requires Valid(a) && Valid(b) && Later(a, b)
    ensures ApplyDelta(FlagsOf(a), ChangedSince(b, a.highestModseq), ExpungedSince(b, a.highestModseq)) == FlagsOf(b)
  {
    forall u: Uid {
      KeptOrChanged(a, b, u);
    }
    DeltaFrom(FlagsOf(a), b, a.highestModseq);
  }

  /**
   Delta equals snapshot. For every run and every earlier point of it, whose highest modseq was m,
   the changes and expunges after m turn the mailbox as it was then into the mailbox as it is now.
  */
  lemma DeltaEqualsSnapshot(t: Tables, before: seq<Op>, after: seq<Op>, id: MailboxId)
    requires ValidTables(t) && id in t
    ensures id in Run(t, before) && id in Run(t, before + after)
    ensures
      var then_ := Run(t, before)[id]; var now := Run(t, before + after)[id]; var m := then_.highestModseq;
      ApplyDelta(FlagsOf(then_), ChangedSince(now, m), ExpungedSince(now, m)) == FlagsOf(now)
  {
    RunLater(t, before);
    RunLater(Run(t, before), after);
    RunSplit(t, before, after);
    DeltaOfLater(Run(t, before)[id], Run(t, before + after)[id]);
  }

  // --- the store, in place ----------------------------------------------------------------------

  datatype Outcome<+T> = Done(value: T) | MailboxGone

  datatype StoreFlagsResult = StoreFlagsResult(
    rows: seq<FlagRow>, changed: set<Uid>, modified: seq<Uid>, modseq: Option<Modseq>)

  /** COPYUID's pairs: the i-th source UID and the i-th UID from `next`. */
  function Pairs(from: seq<Uid>, next: Uid): (r: seq<(Uid, Uid)>) {
    seq(|from|, i requires 0 <= i < |from| => (from[i], next + i))
  }

  lemma PairsStep(from: seq<Uid>, next: Uid, i: nat)
    requires i < |from|
    ensures Pairs(from, next)[..i + 1] == Pairs(from, next)[..i] + [(from[i], next + i)]
  {
  }

  lemma RowsOfAt(mb: Mailbox, uids: seq<Uid>, i: nat)
    requires (forall u :: u in uids ==> u in mb.messages) && i < |uids|
    ensures |RowsOf(mb, uids)| == |uids| && RowsOf(mb, uids)[i] == mb.messages[uids[i]]
  {
  }

  lemma RehomeStep(mb: Mailbox, rows: seq<Row>, i: nat, modseq: Modseq)
    requires i < |rows|
    ensures Rehome(mb, rows[i..], modseq) ==
      Rehome(mb.(uidnext := mb.uidnext + 1, messages := mb.messages[mb.uidnext := rows[i].(modseq := modseq)]),
        rows[i + 1..], modseq)
  {
    assert rows[i..][1..] == rows[i + 1..];
  }

  lemma RehomeNone(mb: Mailbox, rows: seq<Row>, modseq: Modseq)
    requires rows == []
    ensures Rehome(mb, rows, modseq) == mb
  {
  }

  lemma MoveCommit(t: Tables, source: MailboxId, uids: seq<Uid>, target: MailboxId)
    ensures source !in t || target !in t ==> Commit(t, Move(source, uids, target)) == t
    ensures source in t && target in t ==>
      var gone := Targets(t[source], uids);
      var rows := RowsOf(t[source], Sorted(gone));
      var modseq := Max(t[target].highestModseq, t[source].highestModseq) + 1;
      var arrived := Rehome(t[target], rows, modseq).(highestModseq := modseq);
      && gone <= t[source].messages.Keys
      && |rows| == |Sorted(gone)| == |Pairs(Sorted(gone), t[target].uidnext)|
      && Commit(t, Move(source, uids, target)) ==
          if gone == {} then t
          else if source == target then t[target := RemoveTx(arrived, gone, modseq)]
          else t[target := arrived][source := RemoveTx(t[source], gone, modseq)]
  {
    hide Rehome;
    hide RemoveTx;
    hide Sorted;
  }

  /** The bulk UPDATE: the given rows get their new flags and the new modseq. */
  function Updated(mb: Mailbox, updates: map<Uid, seq<Flag>>, modseq: Modseq): (r: Mailbox) {
    mb.(highestModseq := modseq,
        messages := map u | u in mb.messages ::
          if u in updates then mb.messages[u].(flags := updates[u], modseq := modseq) else mb.messages[u])
  }

  lemma UpdatedIsTx(mb: Mailbox, updates: map<Uid, seq<Flag>>, uids: seq<Uid>, op: StoreOperation, flags: seq<Flag>,
          unchangedSince: Option<Modseq>)
    requires updates.Keys == Altered(mb, uids, op, flags, unchangedSince)
    requires forall u :: u in updates ==> updates[u] == ApplyFlags(mb.messages[u].flags, op, flags)
    ensures StoreFlagsTx(mb, uids, op, flags, unchangedSince) ==
      if updates.Keys == {} then mb else Updated(mb, updates, mb.highestModseq + 1)
  {
    var tx := StoreFlagsTx(mb, uids, op, flags, unchangedSince);
    if updates.Keys != {} {
      var up := Updated(mb, updates, mb.highestModseq + 1);
      assert tx.messages.Keys == up.messages.Keys;
      assert forall u :: u in up.messages ==> tx.messages[u] == up.messages[u];
      assert tx.messages == up.messages;
    }
  }

  lemma PlanSets(mb: Mailbox, uids: seq<Uid>, op: StoreOperation, flags: seq<Flag>, unchangedSince: Option<Modseq>)
    ensures RefusedUids(mb, uids, unchangedSince) <= Targets(mb, uids) <= mb.messages.Keys
    ensures Altered(mb, uids, op, flags, unchangedSince) <= Targets(mb, uids)
  {
  }

  lemma PlanAt(mb: Mailbox, uids: seq<Uid>, op: StoreOperation, flags: seq<Flag>, unchangedSince: Option<Modseq>,
          u: Uid)
    requires u in Targets(mb, uids)
    ensures u in mb.messages
    ensures u in RefusedUids(mb, uids, unchangedSince) <==> Refused(mb.messages[u], unchangedSince)
    ensures u in Altered(mb, uids, op, flags, unchangedSince) <==>
      !Refused(mb.messages[u], unchangedSince)
        && !SameFlags(ApplyFlags(mb.messages[u].flags, op, flags), mb.messages[u].flags)
  {
  }

  lemma StoreNothing(t: Tables, id: MailboxId, op: StoreOperation, flags: seq<Flag>, unchangedSince: Option<Modseq>)
    ensures Commit(t, StoreFlags(id, [], op, flags, unchangedSince)) == t
    ensures id in t ==>
      && Targets(t[id], []) == RefusedUids(t[id], [], unchangedSince) == Altered(t[id], [], op, flags, unchangedSince)
         == {}
      && Sorted({}) == [] && FlagRows(t[id], []) == []
  {
    if id in t {
      assert Targets(t[id], []) == {};
      assert Altered(t[id], [], op, flags, unchangedSince) == {};
      assert RefusedUids(t[id], [], unchangedSince) == {};
    }
  }

  lemma StoreFlagsCommit(t: Tables, id: MailboxId, uids: seq<Uid>, op: StoreOperation, flags: seq<Flag>,
          unchangedSince: Option<Modseq>)
    ensures Commit(t, StoreFlags(id, uids, op, flags, unchangedSince)) ==
      if id in t then t[id := StoreFlagsTx(t[id], uids, op, flags, unchangedSince)] else t
    ensures id in t ==>
      && StoreFlagsTx(t[id], uids, op, flags, unchangedSince).messages.Keys == t[id].messages.Keys
      && Targets(t[id], uids) <= t[id].messages.Keys
  {
  }

  /** The loop over the current rows: what UNCHANGEDSINCE refuses, what stays, and the new flags. */
  method PlanUpdates(mb: Mailbox, uids: seq<Uid>, op: StoreOperation, flags: seq<Flag>, unchangedSince: Option<Modseq>)
    returns (modified: seq<Uid>, kept: seq<Uid>, updates: map<Uid, seq<Flag>>)
    ensures modified == Sorted(RefusedUids(mb, uids, unchangedSince))
    ensures kept == Sorted(Targets(mb, uids) - RefusedUids(mb, uids, unchangedSince))
    ensures updates.Keys == Altered(mb, uids, op, flags, unchangedSince)
    ensures forall u :: u in updates ==> updates[u] == ApplyFlags(mb.messages[u].flags, op, flags)
  {
    hide *;
    ghost var targets, refused := Targets(mb, uids), RefusedUids(mb, uids, unchangedSince);
    ghost var altered := Altered(mb, uids, op, flags, unchangedSince);
    ghost var done: set<Uid> := {};
    var current := Sorted(Targets(mb, uids));
    PlanSets(mb, uids, op, flags, unchangedSince);
    WithoutNothing(refused);
    WithoutNothing(targets - refused);
    modified, kept, updates := [], [], map[];
    for i := 0 to |current|
      invariant done == Elements(current[..i])
      invariant modified == Without(current[..i], targets - refused)
      invariant kept == Without(current[..i], refused)
      invariant updates.Keys == done * altered
      invariant forall u :: u in updates ==>
                  u in mb.messages
                  && updates[u] == ApplyFlags(mb.messages[u].flags, op, flags)
    {
      var u := current[i];
      assert u in targets by { assert u in current; }
      PlanAt(mb, uids, op, flags, unchangedSince, u);
      WithoutStep(current, i, refused);
      WithoutStep(current, i, targets - refused);
      ElementsStep(current, i);
      done := done + {u};
      var row := mb.messages[u];
      if Refused(row, unchangedSince) {
        modified := modified + [u];
        continue;
      }
      kept := kept + [u];
      var next := ApplyFlags(row.flags, op, flags);
      if !SameFlags(next, row.flags) {
        updates := updates[u := next];
      }
    }
    assert current[..|current|] == current;
    ElementsSorted(targets);
    WithoutSorted(targets, refused);
    WithoutSorted(targets, targets - refused);
    assert targets - (targets - refused) == refused;
  }

  class Store {
    var tables: Tables

    constructor (t: Tables)
      ensures tables == t
    {
      tables := t;
    }

    /**
     STORE. The rows answered are the targets that still exist and were not refused, as they stand
     after the commit; the changed UIDs are exactly those the transaction stamped.
    */
    method StoreFlags(id: MailboxId, uids: seq<Uid>, op: StoreOperation, flags: seq<Flag>,
            unchangedSince: Option<Modseq>)
      returns (r: Outcome<StoreFlagsResult>)
      modifies this
      ensures tables == Commit(old(tables), Op.StoreFlags(id, uids, op, flags, unchangedSince))
      ensures r.MailboxGone? <==> uids != [] && id !in old(tables)
      ensures r.Done? && id in old(tables) ==>
        var was := old(tables)[id];
        && r.value.changed == Altered(was, uids, op, flags, unchangedSince)
        && r.value.modified == Sorted(RefusedUids(was, uids, unchangedSince))
        && r.value.rows == FlagRows(tables[id], Sorted(Targets(was, uids) - RefusedUids(was, uids, unchangedSince)))
        && r.value.modseq == if r.value.changed == {} then None else Some(was.highestModseq + 1)
    {
      hide *;
      if uids == [] {
        StoreNothing(tables, id, op, flags, unchangedSince);
        return Done(StoreFlagsResult([], {}, [], None));
      }
      StoreFlagsCommit(tables, id, uids, op, flags, unchangedSince);
      if id !in tables {
        return MailboxGone;
      }
      var mb := tables[id];
      var modified, kept, updates := PlanUpdates(mb, uids, op, flags, unchangedSince);
      var modseq: Option<Modseq> := None;
      UpdatedIsTx(mb, updates, uids, op, flags, unchangedSince);
      if updates.Keys != {} {
        var m := mb.highestModseq + 1;
        modseq := Some(m);
        tables := tables[id := Updated(mb, updates, m)];
      }
      r := Done(StoreFlagsResult(FlagRows(tables[id], kept), updates.Keys, modified, modseq));
    }

    /** EXPUNGE, UID EXPUNGE and CLOSE: only messages flagged `\Deleted` go, and each is logged. */
    method Expunge(id: MailboxId, only: Option<seq<Uid>>) returns (r: Outcome<seq<Uid>>)
      modifies this
      ensures tables == Commit(old(tables), Op.Expunge(id, only))
      ensures r.MailboxGone? <==> only != Some([]) && id !in old(tables)
      ensures r.Done? && id in old(tables) ==> r.value == Sorted(Doomed(old(tables)[id], only))
    {
      if only.Some? && only.value == [] {
        if id in tables {
          assert Doomed(tables[id], only) == {};
        }
        return Done([]);
      }
      if id !in tables {
        return MailboxGone;
      }
      var mb := tables[id];
      var rows := Doomed(mb, only);
      if rows == {} {
        return Done([]);
      }
      tables := tables[id := RemoveTx(mb, rows, mb.highestModseq + 1)];
      r := Done(Sorted(rows));
    }

    /** COPY: each source message, in UID order, is filed into the target under the next UID. */
    method Copy(source: MailboxId, uids: seq<Uid>, target: MailboxId) returns (r: Outcome<seq<(Uid, Uid)>>)
      modifies this
      ensures tables == Commit(old(tables), Op.Copy(source, uids, target))
      ensures r.MailboxGone? <==> target !in old(tables)
      ensures r.Done? && source in old(tables) ==>
        r.value == Pairs(Sorted(Targets(old(tables)[source], uids)), old(tables)[target].uidnext)
    {
      if target !in tables {
        return MailboxGone;
      }
      if source !in tables {
        return Done([]);
      }
      var src := tables[source];
      var from := Sorted(Targets(src, uids));
      ghost var rows := RowsOf(src, from);
      var tgt := tables[target];
      var box := tgt;
      var pairs: seq<(Uid, Uid)> := [];
      for i := 0 to |from|
        invariant box.uidnext == tgt.uidnext + i
        invariant FileAll(box, rows[i..]) == FileAll(tgt, rows)
        invariant pairs == Pairs(from, tgt.uidnext)[..i]
      {
        assert from[i] in from;
        var row := src.messages[from[i]];
        assert rows[i] == row && rows[i..][1..] == rows[i + 1..];
        pairs := pairs + [(from[i], box.uidnext)];
        box := FileTx(box, row.flags, row.content);
      }
      assert rows[|from|..] == [];
      tables := tables[target := box];
      r := Done(pairs);
    }

    /** MOVE: rows are re-homed under consecutive new UIDs and one modseq above both mailboxes'. */
    method Move(source: MailboxId, uids: seq<Uid>, target: MailboxId) returns (r: Outcome<seq<(Uid, Uid)>>)
      modifies this
      ensures tables == Commit(old(tables), Op.Move(source, uids, target))
      ensures r.MailboxGone? <==> target !in old(tables) || source !in old(tables)
      ensures r.Done? ==>
        r.value == Pairs(Sorted(Targets(old(tables)[source], uids)), old(tables)[target].uidnext)
    {
      hide *;
      MoveCommit(tables, source, uids, target);
      if target !in tables || source !in tables {
        return MailboxGone;
      }
      var src, tgt := tables[source], tables[target];
      var gone := Targets(src, uids);
      var from := Sorted(gone);
      if gone == {} {
        assert Pairs(from, tgt.uidnext) == [];
        return Done([]);
      }
      var modseq := Max(tgt.highestModseq, src.highestModseq) + 1;
      var pairs: seq<(Uid, Uid)> := [];
      var box := tgt;
      ghost var rows := RowsOf(src, from);
      for i := 0 to |from|
        invariant tables == old(tables)
        invariant box.uidnext == tgt.uidnext + i
        invariant |rows| == |from| && Rehome(box, rows[i..], modseq) == Rehome(tgt, rows, modseq)
        invariant pairs == Pairs(from, tgt.uidnext)[..i]
      {
        assert from[i] in from;
        RehomeStep(box, rows, i, modseq);
        PairsStep(from, tgt.uidnext, i);
        RowsOfAt(src, from, i);
        pairs := pairs + [(from[i], box.uidnext)];
        box := box.(uidnext := box.uidnext + 1,
          messages := box.messages[box.uidnext := src.messages[from[i]].(modseq := modseq)]);
      }
      RehomeNone(box, rows[|from|..], modseq);
      assert box == Rehome(tgt, rows, modseq);
      assert pairs == Pairs(from, tgt.uidnext);
      box := box.(highestModseq := modseq);
      if source == target {
        tables := tables[target := RemoveTx(box, gone, modseq)];
      } else {
        tables := tables[target := box][source := RemoveTx(src, gone, modseq)];
      }
      r := Done(pairs);
    }

    /** APPEND: the message takes `uidnext`. */
    method Append(id: MailboxId, flags: seq<Flag>, content: Content) returns (r: Outcome<Uid>)
      modifies this
      ensures tables == Commit(old(tables), Op.Append(id, flags, content))
      ensures r.MailboxGone? <==> id !in old(tables)
      ensures r.Done? ==> r.value == old(tables)[id].uidnext
    {
      if id !in tables {
        return MailboxGone;
      }
      var normal := NormalizeFlagsLoop(flags);
      r := Done(tables[id].uidnext);
      tables := tables[id := FileTx(tables[id], normal, content)];
    }
  }
}
