/**
 A session's view of its selected mailbox (apps/imap/src/view.ts): the sequence-number to UID list
 the client believes in, the modseq it last heard per message, and the expunges it is still owed.

 `sync` reads the mailbox several times with other sessions committing in between. Each read is
 given the mailbox as it stood then, so a run of `Sync` with s0, s1, s2, s3 in `Later` order is any
 interleaving. The client is a list of slots that replays the untagged responses it is sent.
*/
module ViewModel {
  import opened Sets
  import opened Flags
  import opened MailStore

  datatype View = View(uids: seq<Uid>, known: map<Uid, Modseq>, pending: set<Uid>, highestModseq: Modseq)

  datatype Response =
    | Exists(n: nat)
    | Expunged(n: nat)
    | Vanished(gone: seq<Uid>)
    | Fetch(n: nat, uid: Uid, flags: seq<Flag>, modseq: Option<Modseq>)

  datatype SyncOptions = SyncOptions(allowExpunge: bool, condstore: bool, qresync: bool)

  ghost predicate WellFormed(v: View) {
    && Ascending(v.uids)
    && v.known.Keys == Elements(v.uids)
    && v.pending <= Elements(v.uids)
  }

  function MaxUid(uids: seq<Uid>): (r: Uid) {
    if uids == [] then 0 else uids[|uids| - 1]
  }

  // --- the client -------------------------------------------------------------------------------

  /**
   What a client does with one untagged response. EXISTS grows the list to n slots, whose UIDs the
   client learns from the server (`learned`); a response that does not fit is an error.
  */
  function ReplayOne(slots: seq<Uid>, r: Response, learned: seq<Uid>): (next: Option<seq<Uid>>) {
    match r
    case Exists(n) =>
      if |slots| <= n <= |learned| then Some(slots + learned[|slots|..n]) else None
    case Expunged(n) =>
      if 1 <= n <= |slots| then Some(slots[..n - 1] + slots[n..]) else None
    case Vanished(gone) =>
      if forall u :: u in gone ==> u in slots then Some(Without(slots, Elements(gone))) else None
    case Fetch(n, uid, _, _) =>
      if 1 <= n <= |slots| && slots[n - 1] == uid then Some(slots) else None
  }

  function Replay(slots: seq<Uid>, rs: seq<Response>, learned: seq<Uid>): (next: Option<seq<Uid>>) {
    if rs == [] then Some(slots)
    else
      var n := |rs| - 1;
      match Replay(slots, rs[..n], learned)
      case None => None
      case Some(mid) => ReplayOne(mid, rs[n], learned)
  }

  lemma {:induction false} ReplayConcat(slots: seq<Uid>, a: seq<Response>, b: seq<Response>, learned: seq<Uid>,
          mid: seq<Uid>)
    requires Replay(slots, a, learned) == Some(mid)
    ensures Replay(slots, a + b, learned) == Replay(mid, b, learned)
  {
    if b == [] {
      assert a + b == a;
    } else {
      var n := |b| - 1;
      assert (a + b)[..|a + b| - 1] == a + b[..n];
      ReplayConcat(slots, a, b[..n], learned, mid);
    }
  }

  lemma ReplaySingle(slots: seq<Uid>, r: Response, learned: seq<Uid>)
    ensures Replay(slots, [r], learned) == ReplayOne(slots, r, learned)
  {
    assert [r][..0] == [];
    assert Replay(slots, [], learned) == Some(slots);
  }

  // --- expunges ---------------------------------------------------------------------------------

  function ExpungedView(v: View, gone: set<Uid>): (r: View) {
    v.(uids := Without(v.uids, gone), known := v.known - gone, pending := v.pending - gone)
  }

  /** "* n EXPUNGE" for each of `gone`, highest number first. */
  function ExpungeNumbers(uids: seq<Uid>, gone: set<Uid>): (r: seq<Response>) {
    if uids == [] then []
    else
      var n := |uids| - 1;
      (if uids[n] in gone then [Expunged(n + 1)] else []) + ExpungeNumbers(uids[..n], gone)
  }

  function KnownGone(uids: seq<Uid>, gone: set<Uid>): (r: set<Uid>) {
    set u | u in uids && u in gone
  }

  function ExpungeResponses(uids: seq<Uid>, gone: set<Uid>, vanished: bool): (r: seq<Response>) {
    if vanished then
      var there := KnownGone(uids, gone);
      if there == {} then [] else [Vanished(Sorted(there))]
    else ExpungeNumbers(uids, gone)
  }

  lemma {:induction false} ReplayNumbers(slots: seq<Uid>, uids: seq<Uid>, gone: set<Uid>, rest: seq<Uid>,
          learned: seq<Uid>)
    requires slots == uids + rest
    ensures Replay(slots, ExpungeNumbers(uids, gone), learned) == Some(Without(uids, gone) + rest)
    decreases |uids|
  {
    if uids != [] {
      var n := |uids| - 1;
      var init, last := uids[..n], uids[n];
      assert uids == init + [last];
      if last in gone {
        ReplaySingle(slots, Expunged(n + 1), learned);
        assert slots[..n] + slots[n + 1..] == init + rest;
        ReplayConcat(slots, [Expunged(n + 1)], ExpungeNumbers(init, gone), learned, init + rest);
        ReplayNumbers(init + rest, init, gone, rest, learned);
        assert Without(uids, gone) == Without(init, gone);
      } else {
        assert slots == init + ([last] + rest);
        assert [] + ExpungeNumbers(init, gone) == ExpungeNumbers(init, gone);
        ReplayNumbers(slots, init, gone, [last] + rest, learned);
        assert Without(init, gone) + ([last] + rest) == Without(init, gone) + [last] + rest;
      }
    }
  }

  lemma {:induction false} WithoutThere(s: seq<Uid>, gone: set<Uid>, there: set<Uid>)
    requires forall u :: u in s ==> (u in gone <==> u in there)
    ensures Without(s, gone) == Without(s, there)
  {
    if s != [] {
      var n := |s| - 1;
      assert s == s[..n] + [s[n]];
      WithoutThere(s[..n], gone, there);
    }
  }

  /** A client that replays the expunges, in the order sent, drops exactly the expunged slots. */
  lemma ReplayExpunges(uids: seq<Uid>, gone: set<Uid>, vanished: bool, learned: seq<Uid>)
    ensures Replay(uids, ExpungeResponses(uids, gone, vanished), learned) == Some(Without(uids, gone))
  {
    if vanished {
      var there := KnownGone(uids, gone);
      WithoutThere(uids, gone, there);
      if there == {} {
        WithoutNone(uids, there);
      } else {
        ReplaySingle(uids, Vanished(Sorted(there)), learned);
        assert Elements(Sorted(there)) == there;
        assert forall u :: u in Sorted(there) ==> u in uids;
      }
    } else {
      assert uids == uids + [];
      ReplayNumbers(uids, uids, gone, [], learned);
      assert Without(uids, gone) + [] == Without(uids, gone);
    }
  }

  // --- sync -------------------------------------------------------------------------------------

  function Missing(uids: seq<Uid>, present: set<Uid>): (r: set<Uid>) {
    set u | u in uids && u !in present
  }

  /** Expunges noticed: count first (s2), list only when the count is off (s3). */
  function SyncPending(v: View, s2: Mailbox, s3: Mailbox): (r: set<Uid>) {
    var maxUid := MaxUid(v.uids);
    var live := |v.uids| - |v.pending|;
    if live > 0 && CountUpTo(s2, maxUid) != live then
      v.pending + Missing(v.uids, UidsUpTo(s3, maxUid))
    else v.pending
  }

  function Flush(v: View, opts: SyncOptions): (r: (View, seq<Response>)) {
    if opts.allowExpunge && v.pending != {} then
      (ExpungedView(v, v.pending), ExpungeResponses(v.uids, v.pending, opts.qresync))
    else (v, [])
  }

  function Arrivals(changed: seq<FlagRow>, maxUid: Uid): (r: seq<FlagRow>)
    ensures forall c :: c in r <==> c in changed && c.uid > maxUid
    ensures |r| <= |changed|
  {
    if changed == [] then []
    else
      var n := |changed| - 1;
      assert changed == changed[..n] + [changed[n]];
      Arrivals(changed[..n], maxUid) + if changed[n].uid > maxUid then [changed[n]] else []
  }

  function Arrived(v: View, rows: seq<FlagRow>): (r: View)
    ensures |r.uids| == |v.uids| + |rows|
    ensures r.uids[..|v.uids|] == v.uids
    ensures r.pending == v.pending && r.highestModseq == v.highestModseq
  {
    if rows == [] then v
    else
      var n := |rows| - 1;
      var w := Arrived(v, rows[..n]);
      w.(uids := w.uids + [rows[n].uid], known := w.known[rows[n].uid := rows[n].modseq])
  }

  function ExistsFor(arrived: View, arrivals: seq<FlagRow>): (r: seq<Response>) {
    if arrivals == [] then [] else [Exists(|arrived.uids|)]
  }

  function IndexOf(uids: seq<Uid>, u: Uid): (r: nat)
    requires u in uids
    ensures r < |uids| && uids[r] == u
  {
    if uids[|uids| - 1] == u then |uids| - 1
    else
      assert uids == uids[..|uids| - 1] + [uids[|uids| - 1]];
      IndexOf(uids[..|uids| - 1], u)
  }

  /** The row is news to the client: known to the view, live, and stamped after what it last heard. */
  predicate IsNews(v: View, maxUid: Uid, c: FlagRow) {
    && c.uid <= maxUid
    && c.uid !in v.pending
    && (c.uid in v.known ==> c.modseq > v.known[c.uid])
    && c.uid in v.uids
  }

  function FlagNews(v: View, changed: seq<FlagRow>, maxUid: Uid, condstore: bool): (r: (View, seq<Response>))
    ensures r.0.uids == v.uids && r.0.pending == v.pending && r.0.highestModseq == v.highestModseq
  {
    if changed == [] then (v, [])
    else
      var n := |changed| - 1;
      var (w, rs) := FlagNews(v, changed[..n], maxUid, condstore);
      var c := changed[n];
      if IsNews(w, maxUid, c) then
        (w.(known := w.known[c.uid := c.modseq]),
         rs + [Fetch(IndexOf(w.uids, c.uid) + 1, c.uid, c.flags, if condstore then Some(c.modseq) else None)])
      else (w, rs)
  }

  /** The view and the responses after a sync whose reads saw s0, s1, s2 and s3. */
  function SyncView(v: View, s0: Mailbox, s1: Mailbox, s2: Mailbox, s3: Mailbox,
          opts: SyncOptions): (r: (View, seq<Response>)) {
    if s0.highestModseq == v.highestModseq then Flush(v, opts)
    else
      var changed := ChangedSince(s1, v.highestModseq);
      var maxUid := MaxUid(v.uids);
      var (flushed, expunges) := Flush(v.(pending := SyncPending(v, s2, s3)), opts);
      var arrivals := Arrivals(changed, maxUid);
      var arrived := Arrived(flushed, arrivals);
      var exists_ := ExistsFor(arrived, arrivals);
      var (told, fetches) := FlagNews(arrived, changed, maxUid, opts.condstore);
      (told.(highestModseq := s0.highestModseq), expunges + exists_ + fetches)
  }
}
