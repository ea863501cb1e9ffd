/**
 What a sync keeps and what it achieves, for every interleaving of its reads with other sessions'
 commits, and over whole sessions.
*/
module ViewProofs {
  import opened Sets
  import opened MailStore
  import opened ViewModel

  /** A row the view knows: heard of exactly, or stamped after the view's own modseq. */
  ghost predicate HeardOf(v: View, s: Mailbox, u: Uid)
    requires u in v.known && u in s.messages
  {
    && v.known[u] <= s.messages[u].modseq
    && (v.known[u] == s.messages[u].modseq || s.messages[u].modseq > v.highestModseq)
  }

  /** A live entry: still stored, or expunged after the view's own modseq. */
  ghost predicate LiveOrLate(v: View, s: Mailbox, u: Uid) {
    u in s.messages || (u in s.expunged && s.expunged[u] > v.highestModseq)
  }

  ghost predicate Consistent(v: View, s: Mailbox) {
    && WellFormed(v)
    && v.highestModseq <= s.highestModseq
    && (forall u :: u in v.uids ==> 1 <= u < s.uidnext)
    && (forall u :: u in s.messages && u <= MaxUid(v.uids) ==> u in v.uids && u !in v.pending)
    && (forall u :: u in s.messages && u > MaxUid(v.uids) ==> s.messages[u].modseq > v.highestModseq)
    && (forall u :: u in v.known && u in s.messages ==> HeardOf(v, s, u))
    && (forall u :: u in v.uids && u !in v.pending ==> LiveOrLate(v, s, u))
  }

  lemma MaxUidBounds(uids: seq<Uid>)
    requires Ascending(uids)
    ensures forall u :: u in uids ==> u <= MaxUid(uids)
    ensures uids != [] ==> MaxUid(uids) in uids
  {
  }

  /** Other sessions' commits leave a consistent view consistent. */
  lemma ConsistentLater(v: View, s: Mailbox, s': Mailbox)
    requires Valid(s) && Valid(s') && Later(s, s') && Consistent(v, s)
    ensures Consistent(v, s')
  {
    MaxUidBounds(v.uids);
    forall u | u in s'.messages
      ensures u <= MaxUid(v.uids) ==> u in v.uids && u !in v.pending
      ensures u > MaxUid(v.uids) ==> s'.messages[u].modseq > v.highestModseq
      ensures u in v.known ==> HeardOf(v, s', u)
    {
      assert RowLater(s, s', u);
      if u in s.messages {
        assert ValidRow(s, u, s.messages[u]);
        if u in v.known { assert HeardOf(v, s, u); }
      }
    }
    forall u | u in v.uids && u !in v.pending ensures LiveOrLate(v, s', u) {
      assert LiveOrLate(v, s, u);
    }
  }

  /** Dropping entries that are no longer stored keeps the view consistent. */
  lemma ExpungeKeeps(v: View, s: Mailbox, gone: set<Uid>)
    requires Consistent(v, s) && forall u :: u in gone ==> u !in s.messages
    ensures Consistent(ExpungedView(v, gone), s)
  {
    var w := ExpungedView(v, gone);
    WithoutAscending(v.uids, gone);
    MaxUidBounds(v.uids);
    MaxUidBounds(w.uids);
    assert w.known.Keys == Elements(w.uids);
    forall u | u in s.messages && u > MaxUid(w.uids) ensures s.messages[u].modseq > v.highestModseq {
      assert u <= MaxUid(v.uids) ==> u in w.uids;
    }
    forall u | u in w.known && u in s.messages ensures HeardOf(w, s, u) { assert HeardOf(v, s, u); }
    forall u | u in w.uids && u !in w.pending ensures LiveOrLate(w, s, u) { assert LiveOrLate(v, s, u); }
  }

  lemma FlushKeeps(v: View, s: Mailbox, opts: SyncOptions)
    requires Consistent(v, s)
    ensures Consistent(Flush(v, opts).0, s)
    ensures opts.allowExpunge ==> Flush(v, opts).0.pending == {}
  {
    if opts.allowExpunge && v.pending != {} {
      MaxUidBounds(v.uids);
      assert forall u :: u in v.pending ==> u in v.uids;
      ExpungeKeeps(v, s, v.pending);
    }
  }

  // --- the count shortcut -----------------------------------------------------------------------

  ghost function Live(v: View): set<Uid> {
    Elements(v.uids) - v.pending
  }

  lemma LiveSize(v: View)
    requires WellFormed(v)
    ensures |Live(v)| == |v.uids| - |v.pending|
  {
    AscendingLength(v.uids);
    assert Elements(v.uids) == Live(v) + v.pending;
    assert Live(v) !! v.pending;
  }

  lemma StoredIsLive(v: View, s: Mailbox)
    requires Consistent(v, s)
    ensures UidsUpTo(s, MaxUid(v.uids)) <= Live(v)
  {
  }

  /**
   The count shortcut is exact: the number of stored UIDs up to the view's largest equals the number
   of live entries if and only if every live entry is still stored.
  */
  lemma CountShortcut(v: View, s: Mailbox)
    requires Consistent(v, s)
    ensures CountUpTo(s, MaxUid(v.uids)) == |v.uids| - |v.pending| <==> (forall u :: u in Live(v) ==> u in s.messages)
  {
    var stored := UidsUpTo(s, MaxUid(v.uids));
    StoredIsLive(v, s);
    LiveSize(v);
    MaxUidBounds(v.uids);
    if |stored| == |Live(v)| {
      SubsetSameSize(Live(v), stored);
    }
    if forall u :: u in Live(v) ==> u in s.messages {
      assert stored == Live(v);
    }
  }

  /** Expunges noticed are real, and a live entry left after the two reads was stored at one of them. */
  lemma PendingMeaning(v: View, s2: Mailbox, s3: Mailbox)
    requires Valid(s2) && Valid(s3) && Later(s2, s3) && Consistent(v, s2)
    ensures var w := v.(pending := SyncPending(v, s2, s3));
      && Consistent(w, s3)
      && (forall u :: u in Live(w) ==> u in s2.messages || u in s3.messages)
  {
    var p := SyncPending(v, s2, s3);
    var w := v.(pending := p);
    ConsistentLater(v, s2, s3);
    CountShortcut(v, s2);
    LiveSize(v);
    MaxUidBounds(v.uids);
    assert p <= Elements(v.uids);
    forall u | u in s3.messages && u <= MaxUid(w.uids) ensures u in w.uids && u !in w.pending {
      assert u in UidsUpTo(s3, MaxUid(v.uids));
    }
    forall u | u in w.known && u in s3.messages ensures HeardOf(w, s3, u) { assert HeardOf(v, s3, u); }
    forall u | u in w.uids && u !in w.pending ensures LiveOrLate(w, s3, u) { assert LiveOrLate(v, s3, u); }
    forall u | u in Live(w) ensures u in s2.messages || u in s3.messages {
      assert u in Live(v);
      assert |Live(v)| > 0;
    }
  }

  // --- arrivals and flag news -------------------------------------------------------------------

  ghost predicate AscendingRows(rows: seq<FlagRow>) {
    forall i, j :: 0 <= i < j < |rows| ==> rows[i].uid < rows[j].uid
  }

  ghost function RowUids(rows: seq<FlagRow>): set<Uid> {
    if rows == [] then {} else RowUids(rows[..|rows| - 1]) + {rows[|rows| - 1].uid}
  }

  lemma {:induction false} RowUidsMeaning(rows: seq<FlagRow>)
    ensures forall c :: c in rows ==> c.uid in RowUids(rows)
    ensures forall u :: u in RowUids(rows) ==> exists c :: c in rows && c.uid == u
  {
    if rows != [] {
      var init, c := rows[..|rows| - 1], rows[|rows| - 1];
      assert rows == init + [c];
      RowUidsMeaning(init);
      forall u | u in RowUids(rows) ensures exists d :: d in rows && d.uid == u {
        if u == c.uid {
          assert c in rows;
        } else {
          assert u in RowUids(init);
          var d :| d in init && d.uid == u;
          assert d in rows;
        }
      }
    }
  }

  lemma {:induction false} ArrivalsAscending(changed: seq<FlagRow>, maxUid: Uid)
    requires AscendingRows(changed)
    ensures AscendingRows(Arrivals(changed, maxUid))
  {
    if changed != [] {
      var n := |changed| - 1;
      ArrivalsAscending(changed[..n], maxUid);
      var init := Arrivals(changed[..n], maxUid);
      forall i | 0 <= i < |init| ensures init[i].uid < changed[n].uid {
        assert init[i] in changed[..n];
      }
      if changed[n].uid > maxUid {
        assert Arrivals(changed, maxUid) == init + [changed[n]];
      } else {
        assert Arrivals(changed, maxUid) == init;
      }
    }
  }

  lemma {:induction false} ArrivedUids(v: View, rows: seq<FlagRow>, maxUid: Uid)
    requires Ascending(v.uids) && forall u :: u in v.uids ==> u <= maxUid
    requires AscendingRows(rows) && forall c :: c in rows ==> c.uid > maxUid
    ensures var w := Arrived(v, rows);
      Ascending(w.uids) && Elements(w.uids) == Elements(v.uids) + RowUids(rows)
      && w.pending == v.pending && w.highestModseq == v.highestModseq
  {
    if rows != [] {
      var init, c := rows[..|rows| - 1], rows[|rows| - 1];
      SplitLast(rows);
      ArrivedUids(v, init, maxUid);
      var w := Arrived(v, init);
      forall u | u in w.uids ensures u < c.uid {
        RowUidsMeaning(init);
        assert u in Elements(w.uids);
        assert c in rows;
      }
      AscendingAppend(w.uids, c.uid);
      assert Elements(w.uids + [c.uid]) == Elements(w.uids) + {c.uid};
    }
  }

  lemma {:induction false} ArrivedKnown(v: View, rows: seq<FlagRow>)
    requires AscendingRows(rows) && forall c :: c in rows ==> c.uid !in v.known
    ensures var w := Arrived(v, rows);
      && w.known.Keys == v.known.Keys + RowUids(rows)
      && (forall c :: c in rows ==> c.uid in w.known && w.known[c.uid] == c.modseq)
      && (forall u :: u in v.known ==> u in w.known && w.known[u] == v.known[u])
  {
    if rows != [] {
      SplitLast(rows);
      ArrivedKnown(v, rows[..|rows| - 1]);
      assert rows[|rows| - 1] in rows;
    }
  }

  ghost function NewsUids(v: View, changed: seq<FlagRow>, maxUid: Uid): set<Uid> {
    if changed == [] then {}
    else
      var c := changed[|changed| - 1];
      NewsUids(v, changed[..|changed| - 1], maxUid) + if IsNews(v, maxUid, c) then {c.uid} else {}
  }

  lemma {:induction false} NewsUidsMeaning(v: View, changed: seq<FlagRow>, maxUid: Uid)
    ensures forall c :: c in changed && IsNews(v, maxUid, c) ==> c.uid in NewsUids(v, changed, maxUid)
    ensures forall u :: u in NewsUids(v, changed, maxUid) ==>
            exists c :: c in changed && c.uid == u && IsNews(v, maxUid, c)
  {
    if changed != [] {
      var init, c := changed[..|changed| - 1], changed[|changed| - 1];
      assert changed == init + [c];
      NewsUidsMeaning(v, init, maxUid);
      forall u | u in NewsUids(v, changed, maxUid)
        ensures exists d :: d in changed && d.uid == u && IsNews(v, maxUid, d)
      {
        if u in NewsUids(v, init, maxUid) {
          var d :| d in init && d.uid == u && IsNews(v, maxUid, d);
          assert d in changed;
        } else {
          assert c in changed;
        }
      }
    }
  }

  function FetchUids(rs: seq<Response>): (r: seq<Uid>) {
    if rs == [] then []
    else
      var n := |rs| - 1;
      FetchUids(rs[..n]) + if rs[n].Fetch? then [rs[n].uid] else []
  }

  lemma {:induction false} FetchUidsConcat(a: seq<Response>, b: seq<Response>)
    ensures FetchUids(a + b) == FetchUids(a) + FetchUids(b)
  {
    if b == [] {
      assert a + b == a;
    } else {
      var n := |b| - 1;
      assert (a + b)[..|a + b| - 1] == a + b[..n];
      FetchUidsConcat(a, b[..n]);
    }
  }

  lemma SplitLast(changed: seq<FlagRow>)
    requires changed != [] && AscendingRows(changed)
    ensures var init, c := changed[..|changed| - 1], changed[|changed| - 1];
      && AscendingRows(init)
      && (forall d :: d in changed <==> d in init || d == c)
      && (forall d :: d in init ==> d.uid < c.uid)
  {
    assert changed == changed[..|changed| - 1] + [changed[|changed| - 1]];
  }

  /** News updates what the client heard, and nothing else. */
  lemma {:induction false} FlagNewsKnown(v: View, changed: seq<FlagRow>, maxUid: Uid, condstore: bool)
    requires WellFormed(v) && AscendingRows(changed)
    ensures var w := FlagNews(v, changed, maxUid, condstore).0;
      && w.known.Keys == v.known.Keys
      && (forall c :: c in changed && IsNews(v, maxUid, c) ==> w.known[c.uid] == c.modseq)
      && (forall u :: u in v.known && u !in NewsUids(v, changed, maxUid) ==> w.known[u] == v.known[u])
  {
    if changed != [] {
      var init, c := changed[..|changed| - 1], changed[|changed| - 1];
      SplitLast(changed);
      FlagNewsKnown(v, init, maxUid, condstore);
      assert c.uid !in NewsUids(v, init, maxUid) by { NewsUidsMeaning(v, init, maxUid); }
      assert c.uid in v.uids <==> c.uid in v.known by { assert c.uid in v.uids <==> c.uid in Elements(v.uids); }
      var w := FlagNews(v, init, maxUid, condstore).0;
      assert IsNews(w, maxUid, c) <==> IsNews(v, maxUid, c);
    }
  }

  lemma NewsAgree(v: View, init: seq<FlagRow>, c: FlagRow, maxUid: Uid, condstore: bool)
    requires WellFormed(v) && AscendingRows(init) && forall d :: d in init ==> d.uid < c.uid
    ensures IsNews(FlagNews(v, init, maxUid, condstore).0, maxUid, c) <==> IsNews(v, maxUid, c)
  {
    FlagNewsKnown(v, init, maxUid, condstore);
    NewsUidsMeaning(v, init, maxUid);
  }

  lemma FetchUidsAppend(rs: seq<Response>, f: Response)
    requires f.Fetch?
    ensures FetchUids(rs + [f]) == FetchUids(rs) + [f.uid]
  {
    assert (rs + [f])[..|rs|] == rs;
  }

  /** One FETCH per piece of news, in UID order. */
  lemma {:induction false} FlagNewsFetches(v: View, changed: seq<FlagRow>, maxUid: Uid, condstore: bool)
    requires WellFormed(v) && AscendingRows(changed)
    ensures var rs := FlagNews(v, changed, maxUid, condstore).1;
      Ascending(FetchUids(rs)) && Elements(FetchUids(rs)) == NewsUids(v, changed, maxUid)
  {
    if changed != [] {
      var init, c := changed[..|changed| - 1], changed[|changed| - 1];
      SplitLast(changed);
      FlagNewsFetches(v, init, maxUid, condstore);
      var (w, rs) := FlagNews(v, init, maxUid, condstore);
      NewsAgree(v, init, c, maxUid, condstore);
      if IsNews(w, maxUid, c) {
        FetchUidsAppend(rs, Fetch(IndexOf(w.uids, c.uid) + 1, c.uid, c.flags, if condstore then Some(c.modseq)
          else None));
        forall u | u in FetchUids(rs) ensures u < c.uid {
          NewsUidsMeaning(v, init, maxUid);
          assert u in Elements(FetchUids(rs));
        }
        AscendingAppend(FetchUids(rs), c.uid);
        assert Elements(FetchUids(rs) + [c.uid]) == Elements(FetchUids(rs)) + {c.uid};
      }
    }
  }

  lemma ReplayFetch(uids: seq<Uid>, rs: seq<Response>, f: Response, learned: seq<Uid>)
    requires f.Fetch? && 1 <= f.n <= |uids| && uids[f.n - 1] == f.uid
    requires Replay(uids, rs, learned) == Some(uids)
    ensures Replay(uids, rs + [f], learned) == Some(uids)
  {
    ReplaySingle(uids, f, learned);
    ReplayConcat(uids, rs, [f], learned, uids);
  }

  /** Each FETCH names the slot that holds its UID. */
  lemma {:induction false} FlagNewsReplay(v: View, changed: seq<FlagRow>, maxUid: Uid, condstore: bool,
          learned: seq<Uid>)
    ensures var rs := FlagNews(v, changed, maxUid, condstore).1;
      Replay(v.uids, rs, learned) == Some(v.uids) && forall r :: r in rs ==> r.Fetch?
  {
    if changed != [] {
      var init, c := changed[..|changed| - 1], changed[|changed| - 1];
      FlagNewsReplay(v, init, maxUid, condstore, learned);
      var (w, rs) := FlagNews(v, init, maxUid, condstore);
      if IsNews(w, maxUid, c) {
        var f := Fetch(IndexOf(w.uids, c.uid) + 1, c.uid, c.flags, if condstore then Some(c.modseq) else None);
        ReplayFetch(v.uids, rs, f, learned);
        assert FlagNews(v, changed, maxUid, condstore).1 == rs + [f];
      } else {
        assert FlagNews(v, changed, maxUid, condstore).1 == rs;
      }
    }
  }

  // --- one sync ---------------------------------------------------------------------------------

  ghost predicate Reads(s0: Mailbox, s1: Mailbox, s2: Mailbox, s3: Mailbox) {
    && Valid(s0) && Valid(s1) && Valid(s2) && Valid(s3)
    && Later(s0, s1) && Later(s1, s2) && Later(s2, s3)
  }

  /** After the news, every known message that is still stored was heard of as it stood at s1. */
  lemma HeardAtRead(arrived: View, s1: Mailbox, since: Modseq, maxUid: Uid, condstore: bool, u: Uid)
    requires WellFormed(arrived) && u in arrived.known && u in s1.messages && u !in arrived.pending
    requires u <= maxUid ==> arrived.known[u] <= s1.messages[u].modseq
    requires u <= maxUid ==> arrived.known[u] == s1.messages[u].modseq || s1.messages[u].modseq > since
    requires u > maxUid ==> arrived.known[u] == s1.messages[u].modseq
    ensures var told := FlagNews(arrived, ChangedSince(s1, since), maxUid, condstore).0;
      u in told.known && told.known[u] == s1.messages[u].modseq
  {
    var changed := ChangedSince(s1, since);
    ChangedSinceMeaning(s1, since);
    FlagNewsKnown(arrived, changed, maxUid, condstore);
    assert u in arrived.uids by { assert u in Elements(arrived.uids); }
    if u <= maxUid && arrived.known[u] != s1.messages[u].modseq {
      var c := FlagRow(u, s1.messages[u].flags, s1.messages[u].modseq);
      assert c in changed && IsNews(arrived, maxUid, c);
    } else {
      NewsUidsMeaning(arrived, changed, maxUid);
    }
  }

  /** The UIDs that arrive: everything s1 has above the view. */
  lemma ArrivalUids(v: View, s1: Mailbox, u: Uid)
    requires Consistent(v, s1)
    ensures u in RowUids(Arrivals(ChangedSince(s1, v.highestModseq), MaxUid(v.uids))) <==>
            u in s1.messages && u > MaxUid(v.uids)
  {
    var changed := ChangedSince(s1, v.highestModseq);
    var arrivals := Arrivals(changed, MaxUid(v.uids));
    ChangedSinceMeaning(s1, v.highestModseq);
    RowUidsMeaning(arrivals);
    if u in s1.messages && u > MaxUid(v.uids) {
      assert FlagRow(u, s1.messages[u].flags, s1.messages[u].modseq) in arrivals;
    }
  }

  /** The view between the flush and the news, as the rest of the proof needs it. */
  ghost predicate Flushed(v: View, f: View, s0: Mailbox, s3: Mailbox) {
    && Consistent(f, s3)
    && f.highestModseq == v.highestModseq
    && (forall u :: u in f.uids ==> u in v.uids)
    && (forall u :: u in v.uids && u in s3.messages ==> u in f.uids && u !in f.pending)
    && (forall u :: u in f.known ==> u in v.known && f.known[u] == v.known[u])
    && (forall u :: u in f.uids && u !in f.pending ==>
       u in s3.messages || (u in s3.expunged && s3.expunged[u] > s0.highestModseq))
  }

  lemma FlushedAfterSync(v: View, s0: Mailbox, s1: Mailbox, s2: Mailbox, s3: Mailbox, opts: SyncOptions)
    requires Reads(s0, s1, s2, s3) && Consistent(v, s0)
    ensures Flushed(v, Flush(v.(pending := SyncPending(v, s2, s3)), opts).0, s0, s3)
  {
    ConsistentLater(v, s0, s1);
    ConsistentLater(v, s1, s2);
    PendingMeaning(v, s2, s3);
    var w := v.(pending := SyncPending(v, s2, s3));
    FlushKeeps(w, s3, opts);
    MaxUidBounds(v.uids);
    var f := Flush(w, opts).0;
    forall u | u in f.uids && u !in f.pending
      ensures u in s3.messages || (u in s3.expunged && s3.expunged[u] > s0.highestModseq)
    {
      assert u in Live(w);
    }
  }

  /** What the arrivals make of the flushed view. */
  lemma ArrivedAfterSync(v: View, f: View, s0: Mailbox, s1: Mailbox, s3: Mailbox)
    requires Valid(s1) && Valid(s3) && Later(s1, s3) && Consistent(v, s1) && Flushed(v, f, s0, s3)
    ensures var w := Arrived(f, Arrivals(ChangedSince(s1, v.highestModseq), MaxUid(v.uids)));
      && WellFormed(w) && w.pending == f.pending && w.highestModseq == f.highestModseq
      && (forall u :: u in w.uids <==> u in f.uids || (u in s1.messages && u > MaxUid(v.uids)))
      && (forall u :: u in w.known && u in f.known ==> w.known[u] == f.known[u])
      && (forall u :: u in w.known && u !in f.known ==> u in s1.messages && w.known[u] == s1.messages[u].modseq)
  {
    var changed := ChangedSince(s1, v.highestModseq);
    var maxUid := MaxUid(v.uids);
    var arrivals := Arrivals(changed, maxUid);
    MaxUidBounds(v.uids);
    ChangedSinceMeaning(s1, v.highestModseq);
    ArrivalsAscending(changed, maxUid);
    ArrivedUids(f, arrivals, maxUid);
    assert forall u :: u in f.known ==> u in f.uids by { assert f.known.Keys == Elements(f.uids); }
    ArrivedKnown(f, arrivals);
    RowUidsMeaning(arrivals);
    var w := Arrived(f, arrivals);
    forall u: Uid ensures u in w.uids <==> u in f.uids || (u in s1.messages && u > maxUid) {
      ArrivalUids(v, s1, u);
      assert u in w.uids <==> u in Elements(w.uids);
    }
    assert w.known.Keys == Elements(w.uids);
    assert w.pending <= Elements(w.uids);
  }

  /** `w` holds s3's picture up to its own largest UID, and dates back to the probe s0. */
  lemma AboveViewIsNew(v: View, f: View, w: View, s0: Mailbox, s1: Mailbox, s3: Mailbox, u: Uid)
    requires Valid(s0) && Valid(s1) && Valid(s3) && Later(s0, s1) && Later(s1, s3)
    requires Consistent(v, s1) && Consistent(v, s3) && Flushed(v, f, s0, s3)
    requires WellFormed(w) && w.pending == f.pending
    requires forall x :: x in w.uids <==> x in f.uids || (x in s1.messages && x > MaxUid(v.uids))
    requires u in s3.messages
    ensures u <= MaxUid(w.uids) ==> u in w.uids && u !in w.pending
    ensures u > MaxUid(w.uids) ==> s3.messages[u].modseq > s0.highestModseq
  {
    MaxUidBounds(v.uids);
    MaxUidBounds(w.uids);
    assert RowLater(s1, s3, u);
    if u in w.uids {
      assert u in w.pending ==> u in f.uids && u in v.uids;
    } else {
      assert u !in s1.messages;
      if w.uids != [] {
        var m := MaxUid(w.uids);
        assert m in w.uids;
        if m in f.uids {
          assert m in v.uids && m < s1.uidnext;
        } else {
          assert ValidRow(s1, m, s1.messages[m]);
        }
      }
    }
  }

  /** A sync leaves the view consistent with the mailbox, whatever committed between its reads. */
  lemma SyncKeeps(v: View, s0: Mailbox, s1: Mailbox, s2: Mailbox, s3: Mailbox, opts: SyncOptions)
    requires Reads(s0, s1, s2, s3) && Consistent(v, s0)
    ensures Consistent(SyncView(v, s0, s1, s2, s3, opts).0, s3)
  {
    ConsistentLater(v, s0, s1);
    LaterTransitive(s1, s2, s3);
    ConsistentLater(v, s1, s3);
    if s0.highestModseq == v.highestModseq {
      FlushKeeps(v, s3, opts);
    } else {
      SyncKeepsChanged(v, s0, s1, s2, s3, opts);
    }
  }

  lemma SyncKeepsChanged(v: View, s0: Mailbox, s1: Mailbox, s2: Mailbox, s3: Mailbox, opts: SyncOptions)
    requires Reads(s0, s1, s2, s3) && Later(s1, s3)
    requires Consistent(v, s0) && Consistent(v, s1) && Consistent(v, s3)
    requires s0.highestModseq != v.highestModseq
    ensures Consistent(SyncView(v, s0, s1, s2, s3, opts).0, s3)
  {
    var changed := ChangedSince(s1, v.highestModseq);
    var maxUid := MaxUid(v.uids);
    var f := Flush(v.(pending := SyncPending(v, s2, s3)), opts).0;
    FlushedAfterSync(v, s0, s1, s2, s3, opts);
    ArrivedAfterSync(v, f, s0, s1, s3);
    var w := Arrived(f, Arrivals(changed, maxUid));
    ChangedSinceMeaning(s1, v.highestModseq);
    FlagNewsKnown(w, changed, maxUid, opts.condstore);
    var told := SyncView(v, s0, s1, s2, s3, opts).0;
    assert told.uids == w.uids && told.pending == w.pending && told.known.Keys == w.known.Keys;
    forall u | u in s3.messages
      ensures u <= MaxUid(w.uids) ==> u in w.uids && u !in w.pending
      ensures u > MaxUid(w.uids) ==> s3.messages[u].modseq > s0.highestModseq
    {
      AboveViewIsNew(v, f, w, s0, s1, s3, u);
    }
    forall u | u in told.known && u in s3.messages ensures HeardOf(told, s3, u) {
      ToldIsHeard(v, f, w, s0, s1, s3, opts.condstore, u);
    }
    forall u | u in told.uids ensures 1 <= u < s3.uidnext && (u !in told.pending ==> LiveOrLate(told, s3, u)) {
      if u !in f.uids { assert ValidRow(s1, u, s1.messages[u]); }
    }
  }

  lemma ToldIsHeard(v: View, f: View, w: View, s0: Mailbox, s1: Mailbox, s3: Mailbox, condstore: bool, u: Uid)
    requires Valid(s0) && Valid(s1) && Valid(s3) && Later(s0, s1) && Later(s1, s3)
    requires Consistent(v, s1) && Consistent(v, s3) && Flushed(v, f, s0, s3)
    requires WellFormed(w) && w.pending == f.pending
    requires forall x :: x in w.uids <==> x in f.uids || (x in s1.messages && x > MaxUid(v.uids))
    requires forall x :: x in w.known && x in f.known ==> w.known[x] == f.known[x]
    requires forall x :: x in w.known && x !in f.known ==> x in s1.messages && w.known[x] == s1.messages[x].modseq
    requires u in w.known && u in s3.messages
    ensures var told := FlagNews(w, ChangedSince(s1, v.highestModseq), MaxUid(v.uids),
            condstore).0.(highestModseq := s0.highestModseq);
      u in told.known && HeardOf(told, s3, u)
    ensures u in s1.messages &&
      FlagNews(w, ChangedSince(s1, v.highestModseq), MaxUid(v.uids), condstore).0.known[u] == s1.messages[u].modseq
  {
    MaxUidBounds(v.uids);
    assert u in w.uids by { assert u in Elements(w.uids); }
    assert RowLater(s1, s3, u);
    assert u in f.known <==> u in f.uids by { assert u in f.uids <==> u in Elements(f.uids); }
    if u in f.uids {
      assert u in v.uids && u in v.known;
      assert HeardOf(v, s1, u);
    }
    assert u !in w.pending by {
      assert u in f.pending ==> u in f.uids && u in v.uids;
    }
    HeardAtRead(w, s1, v.highestModseq, MaxUid(v.uids), condstore, u);
  }

  lemma FlushReplay(v: View, opts: SyncOptions, learned: seq<Uid>)
    ensures Replay(v.uids, Flush(v, opts).1, learned) == Some(Flush(v, opts).0.uids)
  {
    if opts.allowExpunge && v.pending != {} {
      ReplayExpunges(v.uids, v.pending, opts.qresync, learned);
    }
  }

  lemma ReplayExists(f: View, arrivals: seq<FlagRow>)
    ensures var w := Arrived(f, arrivals); Replay(f.uids, ExistsFor(w, arrivals), w.uids) == Some(w.uids)
  {
    var w := Arrived(f, arrivals);
    if arrivals != [] {
      ReplaySingle(f.uids, Exists(|w.uids|), w.uids);
      assert f.uids + w.uids[|f.uids|..|w.uids|] == w.uids;
    }
  }

  /**
   A client that had the view's list and replays the responses of a sync in the order sent has the
   view's new list, whatever committed between the reads; no response fails to fit.
  */
  lemma SyncReplay(v: View, s0: Mailbox, s1: Mailbox, s2: Mailbox, s3: Mailbox, opts: SyncOptions)
    ensures var (w, rs) := SyncView(v, s0, s1, s2, s3, opts); Replay(v.uids, rs, w.uids) == Some(w.uids)
  {
    var (told, rs) := SyncView(v, s0, s1, s2, s3, opts);
    if s0.highestModseq == v.highestModseq {
      FlushReplay(v, opts, told.uids);
    } else {
      var changed := ChangedSince(s1, v.highestModseq);
      var maxUid := MaxUid(v.uids);
      var pended := v.(pending := SyncPending(v, s2, s3));
      var (f, expunges) := Flush(pended, opts);
      var arrivals := Arrivals(changed, maxUid);
      var w := Arrived(f, arrivals);
      var exists_ := ExistsFor(w, arrivals);
      var fetches := FlagNews(w, changed, maxUid, opts.condstore).1;
      FlushReplay(pended, opts, w.uids);
      ReplayExists(f, arrivals);
      FlagNewsReplay(w, changed, maxUid, opts.condstore, w.uids);
      ReplayConcat(v.uids, expunges, exists_, w.uids, f.uids);
      ReplayConcat(v.uids, expunges + exists_, fetches, w.uids, w.uids);
    }
  }

  /** A FETCH tells the row as this read of the mailbox has it. */
  ghost predicate TellsRow(r: Response, mb: Mailbox, condstore: bool) {
    r.Fetch? ==>
      && r.uid in mb.messages && r.flags == mb.messages[r.uid].flags
      && r.modseq == if condstore then Some(mb.messages[r.uid].modseq) else None
  }

  lemma {:induction false} FlagNewsRows(v: View, changed: seq<FlagRow>, maxUid: Uid, condstore: bool, mb: Mailbox)
    requires forall c :: c in changed ==> IsRowOf(mb, c)
    ensures forall r :: r in FlagNews(v, changed, maxUid, condstore).1 ==> TellsRow(r, mb, condstore)
  {
    if changed != [] {
      var init, c := changed[..|changed| - 1], changed[|changed| - 1];
      assert c in changed && forall d :: d in init ==> d in changed;
      FlagNewsRows(v, init, maxUid, condstore, mb);
    }
  }

  /** Whatever commits between the reads, every FETCH of a sync tells its message as the read of the rows found it. */
  lemma SyncTells(v: View, s0: Mailbox, s1: Mailbox, s2: Mailbox, s3: Mailbox, opts: SyncOptions)
    ensures forall r :: r in SyncView(v, s0, s1, s2, s3, opts).1 ==> TellsRow(r, s1, opts.condstore)
  {
    ExpungeNumbersKind(v.uids, v.pending);
    if s0.highestModseq != v.highestModseq {
      var pended := v.(pending := SyncPending(v, s2, s3));
      ExpungeNumbersKind(pended.uids, pended.pending);
      var changed := ChangedSince(s1, v.highestModseq);
      ChangedSinceMeaning(s1, v.highestModseq);
      var w := Arrived(Flush(pended, opts).0, Arrivals(changed, MaxUid(v.uids)));
      FlagNewsRows(w, changed, MaxUid(v.uids), opts.condstore, s1);
    }
  }

  /** An expunge comes in the form the client enabled, and only where the command allows it. */
  ghost predicate InForm(r: Response, opts: SyncOptions) {
    && (r.Vanished? ==> opts.allowExpunge && opts.qresync)
    && (r.Expunged? ==> opts.allowExpunge && !opts.qresync)
  }

  lemma FlushInForm(v: View, opts: SyncOptions)
    ensures forall r :: r in Flush(v, opts).1 ==> InForm(r, opts)
  {
    ExpungeNumbersKind(v.uids, v.pending);
  }

  lemma {:induction false} FlagNewsKind(v: View, changed: seq<FlagRow>, maxUid: Uid, condstore: bool)
    ensures forall r :: r in FlagNews(v, changed, maxUid, condstore).1 ==> r.Fetch?
  {
    if changed != [] { FlagNewsKind(v, changed[..|changed| - 1], maxUid, condstore); }
  }

  /** Every expunge a sync tells is a VANISHED if the client enabled that, and a numbered EXPUNGE if it did not. */
  lemma SyncForm(v: View, s0: Mailbox, s1: Mailbox, s2: Mailbox, s3: Mailbox, opts: SyncOptions)
    ensures forall r :: r in SyncView(v, s0, s1, s2, s3, opts).1 ==> InForm(r, opts)
  {
    hide Flush, FlagNews, Arrived, Arrivals, SyncPending, ChangedSince;
    FlushInForm(v, opts);
    if s0.highestModseq != v.highestModseq {
      var pended := v.(pending := SyncPending(v, s2, s3));
      FlushInForm(pended, opts);
      var changed := ChangedSince(s1, v.highestModseq);
      var w := Arrived(Flush(pended, opts).0, Arrivals(changed, MaxUid(v.uids)));
      FlagNewsKind(w, changed, MaxUid(v.uids), opts.condstore);
    }
  }

  /**
   A sync that may not announce expunges sends none and leaves the old list as a prefix of the new
   one, so no sequence number changes under a FETCH, STORE or SEARCH (section 7.5.1 of RFC 9051).
  */
  lemma NoExpungeKeepsNumbers(v: View, s0: Mailbox, s1: Mailbox, s2: Mailbox, s3: Mailbox, opts: SyncOptions)
    requires !opts.allowExpunge
    ensures var (w, rs) := SyncView(v, s0, s1, s2, s3, opts);
      v.uids <= w.uids && forall r :: r in rs ==> r.Exists? || r.Fetch?
  {
    if s0.highestModseq != v.highestModseq {
      var changed := ChangedSince(s1, v.highestModseq);
      var f := v.(pending := SyncPending(v, s2, s3));
      var w := Arrived(f, Arrivals(changed, MaxUid(v.uids)));
      FlagNewsReplay(w, changed, MaxUid(v.uids), opts.condstore, w.uids);
    }
  }

  // --- convergence ------------------------------------------------------------------------------

  /** The view says exactly what the mailbox holds, and owes the client nothing. */
  ghost predicate UpToDate(v: View, s: Mailbox) {
    && v.uids == Uids(s)
    && v.pending == {}
    && v.known.Keys == s.messages.Keys
    && (forall u :: u in s.messages ==> v.known[u] == s.messages[u].modseq)
    && v.highestModseq == s.highestModseq
  }

  /** The messages the client knew that were changed since it last heard of them. */
  ghost function ChangedSinceHeard(v: View, s: Mailbox): set<Uid> {
    set u | u in v.known && u in s.messages && s.messages[u].modseq > v.known[u]
  }

  lemma {:induction false} NoFetches(rs: seq<Response>)
    requires forall r :: r in rs ==> !r.Fetch?
    ensures FetchUids(rs) == []
  {
    if rs != [] {
      NoFetches(rs[..|rs| - 1]);
      assert rs[|rs| - 1] in rs;
    }
  }

  lemma {:induction false} ExpungeNumbersKind(uids: seq<Uid>, gone: set<Uid>)
    ensures forall r :: r in ExpungeNumbers(uids, gone) ==> r.Expunged?
  {
    if uids != [] {
      ExpungeNumbersKind(uids[..|uids| - 1], gone);
    }
  }

  lemma FlushHasNoFetches(v: View, opts: SyncOptions)
    ensures FetchUids(Flush(v, opts).1) == []
  {
    ExpungeNumbersKind(v.uids, v.pending);
    NoFetches(Flush(v, opts).1);
  }

  lemma ExistsIsNoFetch(w: View, arrivals: seq<FlagRow>)
    ensures FetchUids(ExistsFor(w, arrivals)) == []
  {
    NoFetches(ExistsFor(w, arrivals));
  }

  lemma LaterReflexive(s: Mailbox)
    ensures Later(s, s)
  {
  }

  /**
   Sync converges. With no commit between its reads, a sync that allows expunges leaves the view
   equal to the mailbox with nothing pending and every modseq known, and sends exactly one FETCH,
   in UID order, for each message the client knew that changed since it last heard of it.
  */
  lemma SyncConverges(v: View, s: Mailbox, opts: SyncOptions)
    requires Valid(s) && Consistent(v, s) && opts.allowExpunge
    ensures var (w, rs) := SyncView(v, s, s, s, s, opts);
      UpToDate(w, s) && FetchUids(rs) == Sorted(ChangedSinceHeard(v, s))
  {
    LaterReflexive(s);
    SyncKeeps(v, s, s, s, s, opts);
    var (w, rs) := SyncView(v, s, s, s, s, opts);
    SyncLeavesNothing(v, s, opts);
    ConsistentIsUpToDate(w, s);
    if s.highestModseq == v.highestModseq {
      FlushHasNoFetches(v, opts);
      forall u | u in v.known && u in s.messages ensures s.messages[u].modseq <= v.known[u] {
        assert HeardOf(v, s, u) && ValidRow(s, u, s.messages[u]);
      }
      assert ChangedSinceHeard(v, s) == {};
    } else {
      SyncFetches(v, s, opts);
    }
  }

  lemma SyncLeavesNothing(v: View, s: Mailbox, opts: SyncOptions)
    requires opts.allowExpunge
    ensures var w := SyncView(v, s, s, s, s, opts).0; w.pending == {} && w.highestModseq == s.highestModseq
  {
    var f := Flush(v.(pending := SyncPending(v, s, s)), opts).0;
    assert f.pending == {};
  }

  /** A consistent view that dates from the mailbox's own modseq and owes nothing is up to date. */
  lemma ConsistentIsUpToDate(w: View, s: Mailbox)
    requires Valid(s) && Consistent(w, s) && w.pending == {} && w.highestModseq == s.highestModseq
    ensures UpToDate(w, s)
  {
    MaxUidBounds(w.uids);
    hide Sorted;
    forall u: Uid ensures u in w.uids <==> u in s.messages {
      UpToDateAt(w, s, u);
    }
    SortedOf(w.uids, s.messages.Keys);
    ElementsSorted(s.messages.Keys);
    forall u | u in s.messages ensures w.known[u] == s.messages[u].modseq {
      UpToDateAt(w, s, u);
    }
  }

  lemma UpToDateAt(w: View, s: Mailbox, u: Uid)
    requires Valid(s) && Consistent(w, s) && w.pending == {} && w.highestModseq == s.highestModseq
    ensures u in w.uids <==> u in s.messages
    ensures u in s.messages && u in w.known ==> w.known[u] == s.messages[u].modseq
  {
    if u in s.messages {
      assert ValidRow(s, u, s.messages[u]);
      assert u in w.known ==> HeardOf(w, s, u);
    }
    if u in w.uids { assert LiveOrLate(w, s, u); }
  }

  lemma SyncFetches(v: View, s: Mailbox, opts: SyncOptions)
    requires Valid(s) && Consistent(v, s) && opts.allowExpunge && s.highestModseq != v.highestModseq
    ensures FetchUids(SyncView(v, s, s, s, s, opts).1) == Sorted(ChangedSinceHeard(v, s))
  {
    LaterReflexive(s);
    var changed := ChangedSince(s, v.highestModseq);
    var maxUid := MaxUid(v.uids);
    var pended := v.(pending := SyncPending(v, s, s));
    var (f, expunges) := Flush(pended, opts);
    FlushedAfterSync(v, s, s, s, s, opts);
    ArrivedAfterSync(v, f, s, s, s);
    var arrivals := Arrivals(changed, maxUid);
    var w := Arrived(f, arrivals);
    var exists_ := ExistsFor(w, arrivals);
    var fetches := FlagNews(w, changed, maxUid, opts.condstore).1;
    ChangedSinceMeaning(s, v.highestModseq);
    FlagNewsFetches(w, changed, maxUid, opts.condstore);
    FlushHasNoFetches(pended, opts);
    ExistsIsNoFetch(w, arrivals);
    FetchUidsConcat(expunges, exists_);
    FetchUidsConcat(expunges + exists_, fetches);
    assert FetchUids(SyncView(v, s, s, s, s, opts).1) == FetchUids(fetches);
    forall u: Uid ensures u in FetchUids(fetches) <==> u in ChangedSinceHeard(v, s) {
      NewsAreChanges(v, f, w, s, u);
      assert u in FetchUids(fetches) <==> u in Elements(FetchUids(fetches));
    }
    SortedOf(FetchUids(fetches), ChangedSinceHeard(v, s));
  }

  lemma NewsAreChanges(v: View, f: View, w: View, s: Mailbox, u: Uid)
    requires Valid(s) && Consistent(v, s) && Flushed(v, f, s, s) && f.pending == {}
    requires WellFormed(w) && w.pending == f.pending
    requires forall x :: x in w.uids <==> x in f.uids || (x in s.messages && x > MaxUid(v.uids))
    requires forall x :: x in w.known && x in f.known ==> w.known[x] == f.known[x]
    ensures u in NewsUids(w, ChangedSince(s, v.highestModseq), MaxUid(v.uids)) <==> u in ChangedSinceHeard(v, s)
  {
    var changed := ChangedSince(s, v.highestModseq);
    var maxUid := MaxUid(v.uids);
    MaxUidBounds(v.uids);
    ChangedSinceMeaning(s, v.highestModseq);
    NewsUidsMeaning(w, changed, maxUid);
    assert u in v.known <==> u in v.uids by { assert u in v.uids <==> u in Elements(v.uids); }
    assert u in f.known <==> u in f.uids by { assert u in f.uids <==> u in Elements(f.uids); }
    assert u in w.known <==> u in w.uids by { assert u in w.uids <==> u in Elements(w.uids); }
    if u in ChangedSinceHeard(v, s) {
      assert HeardOf(v, s, u);
      var c := FlagRow(u, s.messages[u].flags, s.messages[u].modseq);
      assert c in changed && IsNews(w, maxUid, c);
    }
    if u in NewsUids(w, changed, maxUid) {
      var c :| c in changed && c.uid == u && IsNews(w, maxUid, c);
      assert IsRowOf(s, c);
    }
  }
}
