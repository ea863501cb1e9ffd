/**
 CalDAV/CardDAV sync-collection paging (apps/dav/src/server.ts, section 3.5.2 of RFC 6578) over the
 change log of packages/dav-store: every write takes the collection's next sequence number, stamps
 the resource with it and appends one change, so the change with sequence number q is `log[q - 1]`.
*/
module DavSync {
  import opened Sets

  type Name = string

  datatype Change = Change(name: Name, deleted: bool)

  /** `members`: name to modSeq. */
  datatype Collection = Collection(members: map<Name, nat>, log: seq<Change>)

  datatype Write = Put(name: Name) | Delete(name: Name)

  function Apply(c: Collection, w: Write): (r: Collection) {
    match w
    case Put(n) => Collection(c.members[n := |c.log| + 1], c.log + [Change(n, false)])
    case Delete(n) => if n in c.members then Collection(c.members - {n}, c.log + [Change(n, true)]) else c
  }

  function ApplyAll(c: Collection, ws: seq<Write>): (r: Collection) {
    if ws == [] then c else Apply(ApplyAll(c, ws[..|ws| - 1]), ws[|ws| - 1])
  }

  /** The sequence number of the last change to `n`; 0 when there is none. */
  function LastChange(log: seq<Change>, n: Name): (q: nat)
    ensures q <= |log| && (q > 0 ==> log[q - 1].name == n)
  {
    if log == [] then 0
    else if log[|log| - 1].name == n then |log|
    else LastChange(log[..|log| - 1], n)
  }

  ghost predicate MemberFits(c: Collection, n: Name) {
    var q := LastChange(c.log, n);
    && (n in c.members <==> q > 0 && !c.log[q - 1].deleted)
    && (n in c.members ==> c.members[n] == q)
  }

  ghost predicate Valid(c: Collection) {
    forall n :: MemberFits(c, n)
  }

  lemma LastChangeAppend(log: seq<Change>, ch: Change, n: Name)
    ensures LastChange(log + [ch], n) == if ch.name == n then |log| + 1 else LastChange(log, n)
  {
    assert (log + [ch])[..|log|] == log;
  }

  /** Every run of writes keeps the members what the log says they are. */
  lemma {:induction false} WritesKeepValid(c: Collection, ws: seq<Write>)
    requires Valid(c)
    ensures Valid(ApplyAll(c, ws)) && c.log <= ApplyAll(c, ws).log
  {
    if ws != [] {
      var mid, w := ApplyAll(c, ws[..|ws| - 1]), ws[|ws| - 1];
      WritesKeepValid(c, ws[..|ws| - 1]);
      WriteKeepsValid(mid, w);
    }
  }

  lemma WriteKeepsValid(c: Collection, w: Write)
    requires Valid(c)
    ensures Valid(Apply(c, w)) && c.log <= Apply(c, w).log
  {
    forall n: Name {
      WriteFits(c, w, n);
    }
  }

  lemma WriteFits(c: Collection, w: Write, n: Name)
    requires MemberFits(c, n) && MemberFits(c, w.name)
    ensures MemberFits(Apply(c, w), n)
  {
    hide LastChange;
    LastChangeAppend(c.log, Change(w.name, w.Delete?), n);
  }

  function LastWrite(ws: seq<Write>, n: Name): (r: Option<Write>) {
    if ws == [] then None
    else if ws[|ws| - 1].name == n then Some(ws[|ws| - 1])
    else LastWrite(ws[..|ws| - 1], n)
  }

  /**
   After every run of writes a name is a member if and only if its last write put it, or none named it and it
   was one before; a name put in the run has a new sequence number, and one not named keeps its own.
  */
  lemma {:induction false} LastWriteWins(c: Collection, ws: seq<Write>, n: Name)
    ensures var r, last := ApplyAll(c, ws), LastWrite(ws, n);
      && |c.log| <= |r.log| && (n in r.members <==> if last.Some? then last.value.Put? else n in c.members)
      && (last.None? && n in c.members ==> r.members[n] == c.members[n])
      && (last.Some? && last.value.Put? ==> |c.log| < r.members[n] <= |r.log|)
  {
    if ws != [] { LastWriteWins(c, ws[..|ws| - 1], n); }
  }

  // --- one page ---------------------------------------------------------------------------------

  datatype Request = Initial | Since(token: nat)

  /** Per name, the modSeq the client is given, or None for a bare 404. */
  datatype Page = Forbidden | Page(rows: map<Name, Option<nat>>, token: nat, truncated: bool)

  /** Members with modSeq up to `current`, as modSeqs in ascending order. */
  function MembersUpTo(c: Collection, current: nat): (r: seq<nat>) {
    Sorted(set n | n in c.members && c.members[n] <= current :: c.members[n])
  }

  function Listed(s1: Collection, s2: Collection, seqs: seq<nat>, withData: bool): (r: map<Name, Option<nat>>) {
    if withData then map n | n in s1.members && s1.members[n] in seqs && n in s2.members :: Some(s2.members[n])
    else map n | n in s1.members && s1.members[n] in seqs :: Some(s1.members[n])
  }

  predicate OverLimit(latest: map<Name, bool>, n: Name, limit: Option<nat>) {
    n !in latest && limit.Some? && |latest| >= limit.value
  }

  /** The scan of the changes: latest state per name, the token reached, and whether it stopped early. */
  function Scan(log: seq<Change>, i: nat, end: nat, latest: map<Name, bool>,
          limit: Option<nat>): (r: (map<Name, bool>, nat, bool))
    requires i <= end <= |log|
    decreases end - i
  {
    if i == end then (latest, end, false)
    else if OverLimit(latest, log[i].name, limit) then (latest, i, true)
    else Scan(log, i + 1, end, latest[log[i].name := log[i].deleted], limit)
  }

  function Reported(latest: map<Name, bool>, s2: Collection): (r: map<Name, Option<nat>>) {
    map n | n in latest :: if !latest[n] && n in s2.members then Some(s2.members[n]) else None
  }

  /** The names a prefix of the log has touched since `from`, and how it left them. */
  ghost predicate ScanFits(log: seq<Change>, from: nat, i: nat, latest: map<Name, bool>)
    requires from <= i <= |log|
  {
    forall n :: var q := LastChange(log[..i], n);
      (n in latest <==> q > from) && (n in latest ==> latest[n] == log[q - 1].deleted)
  }

  lemma ScanFitsStep(log: seq<Change>, from: nat, i: nat, latest: map<Name, bool>)
    requires from <= i < |log| && ScanFits(log, from, i, latest)
    ensures ScanFits(log, from, i + 1, latest[log[i].name := log[i].deleted])
  {
    assert log[..i + 1] == log[..i] + [log[i]];
    forall n: Name {
      LastChangeAppend(log[..i], log[i], n);
    }
  }

  lemma {:induction false} ScanMeaning(log: seq<Change>, from: nat, i: nat, end: nat, latest: map<Name, bool>,
          limit: Option<nat>)
    requires from <= i <= end <= |log| && ScanFits(log, from, i, latest)
    ensures
      var (l, t, truncated) := Scan(log, i, end, latest, limit);
      && i <= t <= end && ScanFits(log, from, t, l)
      && (!truncated ==> t == end)
      && (truncated ==> t < end && limit.Some? && |l| >= limit.value)
    decreases end - i
  {
    if i < end && !OverLimit(latest, log[i].name, limit) {
      ScanFitsStep(log, from, i, latest);
      ScanMeaning(log, from, i + 1, end, latest[log[i].name := log[i].deleted], limit);
    }
  }

  /**
   The report: `current` is read first (s0), then the members or the changes (s1), then the data
   (s2), with writes landing in between.
  */
  ghost predicate Reads(s0: Collection, s1: Collection, s2: Collection) {
    Valid(s0) && Valid(s1) && Valid(s2) && s0.log <= s1.log <= s2.log
  }

  method SyncCollection(req: Request, limit: Option<nat>, withData: bool, s0: Collection, s1: Collection,
          s2: Collection)
    returns (page: Page)
    requires Reads(s0, s1, s2)
    ensures page == PageOf(req, limit, withData, s0, s1, s2)
  {
    var current := |s0.log|;
    var token := current;
    var truncated := false;
    match req
    case Initial =>
      var members := MembersUpTo(s1, current);
      if limit.Some? && |members| > limit.value {
        members := members[..limit.value];
        truncated := true;
        token := if members == [] then 0 else members[|members| - 1];
      }
      page := Page(Listed(s1, s2, members, withData), token, truncated);
    case Since(from) =>
      if from > current {
        return Forbidden;
      }
      var latest: map<Name, bool> := map[];
      var i := from;
      while i < current
        invariant from <= i <= current && !truncated && token == current
        invariant Scan(s1.log, i, current, latest, limit) == Scan(s1.log, from, current, map[], limit)
      {
        var c := s1.log[i];
        if c.name !in latest && limit.Some? && |latest| >= limit.value {
          truncated := true;
          token := i;
          break;
        }
        latest := latest[c.name := c.deleted];
        i := i + 1;
      }
      page := Page(Reported(latest, s2), token, truncated);
  }

  function PageOf(req: Request, limit: Option<nat>, withData: bool, s0: Collection, s1: Collection,
          s2: Collection): (page: Page)
    requires Reads(s0, s1, s2)
  {
    var current := |s0.log|;
    match req
    case Initial =>
      var all := MembersUpTo(s1, current);
      if limit.Some? && |all| > limit.value then
        var some := all[..limit.value];
        Page(Listed(s1, s2, some, withData), if some == [] then 0 else some[|some| - 1], true)
      else Page(Listed(s1, s2, all, withData), current, false)
    case Since(from) =>
      if from > current then Forbidden
      else
        var (latest, token, truncated) := Scan(s1.log, from, current, map[], limit);
        Page(Reported(latest, s2), token, truncated)
  }

  // --- the size of a page -----------------------------------------------------------------------

  lemma {:induction false} ScanWithin(log: seq<Change>, i: nat, end: nat, latest: map<Name, bool>, limit: nat)
    requires i <= end <= |log| && |latest| <= limit
    ensures |Scan(log, i, end, latest, Some(limit)).0| <= limit
    decreases end - i
  {
    if i < end && !OverLimit(latest, log[i].name, Some(limit)) {
      var n := log[i].name;
      var next := latest[n := log[i].deleted];
      assert next.Keys == latest.Keys + {n};
      assert |next| == |next.Keys| && |latest| == |latest.Keys|;
      if n in latest { assert next.Keys == latest.Keys; }
      ScanWithin(log, i + 1, end, next, limit);
    }
  }

  /** Two members never have the same modSeq. */
  lemma ModSeqsDiffer(c: Collection, a: Name, b: Name)
    requires Valid(c) && a in c.members && b in c.members && c.members[a] == c.members[b]
    ensures a == b
  {
    assert MemberFits(c, a) && MemberFits(c, b);
  }

  lemma {:induction false} NamesWithin(c: Collection, names: set<Name>, seqs: set<nat>)
    requires Valid(c) && forall n :: n in names ==> n in c.members && c.members[n] in seqs
    ensures |names| <= |seqs|
    decreases |names|
  {
    hide Valid;
    if names != {} {
      var n :| n in names;
      var rest, others := names - {n}, seqs - {c.members[n]};
      forall m | m in rest ensures m in c.members && c.members[m] in others {
        if c.members[m] == c.members[n] { ModSeqsDiffer(c, m, n); }
      }
      NamesWithin(c, rest, others);
    }
  }

  /**
   A page never has more rows than its limit; it is forbidden exactly for a token of the future; and its token is the
   end of the log as first read exactly when nothing was left out.
  */
  lemma PageWithinLimit(req: Request, limit: Option<nat>, withData: bool, s0: Collection, s1: Collection,
          s2: Collection)
    requires Reads(s0, s1, s2)
    ensures var p := PageOf(req, limit, withData, s0, s1, s2);
      && (p.Forbidden? <==> req.Since? && req.token > |s0.log|)
      && (p.Page? && limit.Some? ==> |p.rows| <= limit.value)
      && (p.Page? ==> p.token <= |s0.log| && (!p.truncated ==> p.token == |s0.log|))
  {
    match req
    case Initial => FirstPageWithin(limit, withData, s0, s1, s2);
    case Since(from) => if from <= |s0.log| { NextPageWithin(from, limit, withData, s0, s1, s2); }
  }

  lemma FirstPageWithin(limit: Option<nat>, withData: bool, s0: Collection, s1: Collection, s2: Collection)
    requires Reads(s0, s1, s2)
    ensures var p := PageOf(Initial, limit, withData, s0, s1, s2);
      && p.Page? && (limit.Some? ==> |p.rows| <= limit.value)
      && p.token <= |s0.log| && (!p.truncated ==> p.token == |s0.log|)
  {
    var all := MembersUpTo(s1, |s0.log|);
    InitialToken(s1, |s0.log|);
    if limit.Some? {
      var some := if |all| > limit.value then all[..limit.value] else all;
      assert some != [] ==> some[|some| - 1] == all[|some| - 1] && all[|some| - 1] in all;
      assert Valid(s1);
      hide Valid, MembersUpTo, Listed;
      InitialWithin(s1, s2, some, withData);
    }
  }

  lemma NextPageWithin(from: nat, limit: Option<nat>, withData: bool, s0: Collection, s1: Collection, s2: Collection)
    requires Reads(s0, s1, s2) && from <= |s0.log|
    ensures var p := PageOf(Since(from), limit, withData, s0, s1, s2);
      && p.Page? && (limit.Some? ==> |p.rows| <= limit.value)
      && p.token <= |s0.log| && (!p.truncated ==> p.token == |s0.log|)
  {
    hide Valid, ScanFits;
    ScanStart(s1.log, from);
    ScanMeaning(s1.log, from, from, |s0.log|, map[], limit);
    var latest := Scan(s1.log, from, |s0.log|, map[], limit).0;
    if limit.Some? { ScanWithin(s1.log, from, |s0.log|, map[], limit.value); }
    assert Reported(latest, s2).Keys == latest.Keys;
    assert |Reported(latest, s2)| == |Reported(latest, s2).Keys| && |latest| == |latest.Keys|;
  }

  lemma InitialToken(s1: Collection, current: nat)
    ensures forall q :: q in MembersUpTo(s1, current) ==> q <= current
  {
  }

  lemma InitialWithin(s1: Collection, s2: Collection, seqs: seq<nat>, withData: bool)
    requires Valid(s1)
    ensures |Listed(s1, s2, seqs, withData)| <= |seqs|
  {
    var rows := Listed(s1, s2, seqs, withData);
    assert |rows| == |rows.Keys|;
    NamesWithin(s1, rows.Keys, Elements(seqs));
    ElementsSize(seqs);
  }

  lemma {:induction false} ElementsSize(seqs: seq<nat>)
    ensures |Elements(seqs)| <= |seqs|
  {
    if seqs != [] {
      var n := |seqs| - 1;
      assert Elements(seqs) == Elements(seqs[..n]) + {seqs[n]} by { assert seqs == seqs[..n] + [seqs[n]]; }
      ElementsSize(seqs[..n]);
    }
  }

  // --- the client -------------------------------------------------------------------------------

  type Client = map<Name, nat>

  function Update(client: Client, rows: map<Name, Option<nat>>): (r: Client) {
    map n | n in client.Keys + rows.Keys && (n in rows ==> rows[n].Some?) :: if n in rows then rows[n].value
      else client[n]
  }

  ghost predicate Agrees(client: Client, c: Collection, n: Name) {
    (n in client <==> n in c.members) && (n in client ==> client[n] == c.members[n])
  }

  /** The client equals the server on every name with no change after its token. */
  ghost predicate UpToToken(client: Client, token: nat, c: Collection) {
    forall n :: LastChange(c.log, n) <= token ==> Agrees(client, c, n)
  }

  lemma {:induction false} LastChangePrefix(log: seq<Change>, k: nat, n: Name)
    requires k <= |log|
    ensures LastChange(log[..k], n) <= LastChange(log, n)
    ensures LastChange(log, n) <= k ==> LastChange(log[..k], n) == LastChange(log, n)
    decreases |log|
  {
    if k == |log| {
      assert log[..k] == log;
    } else {
      var m := |log| - 1;
      assert log[..m][..k] == log[..k];
      LastChangePrefix(log[..m], k, n);
    }
  }

  lemma SameSince(s1: Collection, s2: Collection, n: Name)
    requires Valid(s1) && Valid(s2) && s1.log <= s2.log
    ensures LastChange(s1.log, n) <= LastChange(s2.log, n)
    ensures LastChange(s2.log, n) <= |s1.log| ==>
      LastChange(s1.log, n) == LastChange(s2.log, n) && Agrees(s1.members, s2, n)
  {
    LastChangePrefix(s2.log, |s1.log|, n);
    assert s2.log[..|s1.log|] == s1.log;
    assert MemberFits(s1, n) && MemberFits(s2, n);
  }

  /** Later writes change nothing a token already covers. */
  lemma UpToTokenLater(client: Client, token: nat, c: Collection, c': Collection)
    requires Valid(c) && Valid(c') && c.log <= c'.log && token <= |c.log| && UpToToken(client, token, c)
    ensures UpToToken(client, token, c')
  {
    forall n | LastChange(c'.log, n) <= token ensures Agrees(client, c', n) {
      SameSince(c, c', n);
    }
  }

  /** An incremental page moves an up-to-date client to the page's token. */
  lemma IncrementalPage(client: Client, from: nat, limit: Option<nat>, withData: bool, s0: Collection, s1: Collection,
          s2: Collection)
    requires Reads(s0, s1, s2) && from <= |s0.log| && UpToToken(client, from, s0)
    ensures var p := PageOf(Since(from), limit, withData, s0, s1, s2);
      && p.Page? && from <= p.token <= |s0.log|
      && UpToToken(Update(client, p.rows), p.token, s2)
      && (!p.truncated ==> p.token == |s0.log|)
      && (p.truncated ==> limit.Some? && (limit.value >= 1 ==> p.token > from))
  {
    UpToTokenLater(client, from, s0, s2);
    ScanStart(s1.log, from);
    ScanMeaning(s1.log, from, from, |s0.log|, map[], limit);
    var (latest, token, truncated) := Scan(s1.log, from, |s0.log|, map[], limit);
    var p := PageOf(Since(from), limit, withData, s0, s1, s2);
    assert p == Page(Reported(latest, s2), token, truncated);
    hide Scan;
    hide PageOf;
    hide Reported;
    hide Update;
    hide Agrees;
    forall n | LastChange(s2.log, n) <= token ensures Agrees(Update(client, p.rows), s2, n) {
      ReportAgrees(client, from, latest, token, s1, s2, n);
    }
    if token == from {
      ScanEmpty(s1.log, from, latest);
    }
  }

  lemma ReportAgrees(client: Client, from: nat, latest: map<Name, bool>, token: nat, s1: Collection, s2: Collection,
          n: Name)
    requires Valid(s2) && s1.log <= s2.log && from <= token <= |s1.log|
    requires ScanFits(s1.log, from, token, latest) && UpToToken(client, from, s2)
    requires LastChange(s2.log, n) <= token
    ensures Agrees(Update(client, Reported(latest, s2)), s2, n)
  {
    hide LastChange;
    LastChangePrefix(s2.log, token, n);
    assert s2.log[..token] == s1.log[..token];
    var q := LastChange(s1.log[..token], n);
    assert (n in latest <==> q > from) && (n in latest ==> latest[n] == s1.log[q - 1].deleted);
    assert MemberFits(s2, n);
    assert q <= from ==> Agrees(client, s2, n);
    hide ScanFits;
    hide Valid;
    hide UpToToken;
  }

  lemma ScanStart(log: seq<Change>, from: nat)
    requires from <= |log|
    ensures ScanFits(log, from, from, map[])
  {
  }

  lemma ScanEmpty(log: seq<Change>, from: nat, latest: map<Name, bool>)
    requires from <= |log| && ScanFits(log, from, from, latest)
    ensures latest == map[]
  {
    forall n: Name ensures n !in latest {
      assert LastChange(log[..from], n) <= from;
    }
  }

  lemma {:induction false} TakenUpToLast(all: seq<nat>, k: nat, q: nat)
    requires Ascending(all) && 0 < k <= |all| && q in all
    ensures q <= all[k - 1] <==> q in all[..k]
  {
    var i :| 0 <= i < |all| && all[i] == q;
    assert i < k ==> all[..k][i] == q;
    assert q in all[..k] ==> exists j :: 0 <= j < k && all[j] == q;
  }

  lemma ModSeqListed(c: Collection, current: nat, n: Name)
    requires n in c.members && c.members[n] <= current
    ensures c.members[n] in MembersUpTo(c, current)
  {
  }

  lemma ListedIsMember(c: Collection, current: nat, q: nat)
    requires Valid(c) && q in MembersUpTo(c, current)
    ensures 1 <= q <= current
  {
    var n :| n in c.members && c.members[n] == q && q <= current;
    assert MemberFits(c, n);
  }

  /** The first page, to a client that has nothing. */
  lemma InitialPage(limit: Option<nat>, withData: bool, s0: Collection, s1: Collection, s2: Collection)
    requires Reads(s0, s1, s2)
    ensures
      var p := PageOf(Initial, limit, withData, s0, s1, s2);
      && p.Page? && p.token <= |s0.log|
      && UpToToken(Update(map[], p.rows), p.token, s2)
      && (!p.truncated ==> p.token == |s0.log|)
      && (p.truncated ==> limit.Some? && (limit.value >= 1 ==> p.token >= 1))
  {
    var p := PageOf(Initial, limit, withData, s0, s1, s2);
    var current := |s0.log|;
    var all := MembersUpTo(s1, current);
    SortedAscending(set n | n in s1.members && s1.members[n] <= current :: s1.members[n]);
    var cut := limit.Some? && |all| > limit.value;
    var some := if cut then all[..limit.value] else all;
    assert p == Page(Listed(s1, s2, some, withData), if !cut then current else if some == [] then 0
      else some[|some| - 1], cut);
    if some != [] { assert some[|some| - 1] in all; ListedIsMember(s1, current, some[|some| - 1]); }
    forall n | LastChange(s2.log, n) <= p.token ensures Agrees(Update(map[], p.rows), s2, n) {
      InitialAgrees(withData, s1, s2, all, some, current, p.token, n);
    }
  }

  lemma InitialAgrees(withData: bool, s1: Collection, s2: Collection, all: seq<nat>, some: seq<nat>, current: nat,
          token: nat, n: Name)
    requires Valid(s1) && Valid(s2) && s1.log <= s2.log && current <= |s1.log|
    requires all == MembersUpTo(s1, current) && Ascending(all) && some <= all
    requires token <= current && (some != all ==> token == if some == [] then 0 else some[|some| - 1])
    requires LastChange(s2.log, n) <= token
    ensures Agrees(Update(map[], Listed(s1, s2, some, withData)), s2, n)
  {
    SameSince(s1, s2, n);
    assert MemberFits(s1, n) && MemberFits(s2, n);
    if n in s1.members { ModSeqListed(s1, current, n); }
    ListedAgrees(withData, s1, s2, all, some, token, n);
  }

  lemma ListedAgrees(withData: bool, s1: Collection, s2: Collection, all: seq<nat>, some: seq<nat>, token: nat, n: Name)
    requires Agrees(s1.members, s2, n)
    requires n in s1.members ==> 1 <= s1.members[n] <= token && s1.members[n] in all
    requires Ascending(all) && some <= all && (some != all ==> token == if some == [] then 0 else some[|some| - 1])
    ensures Agrees(Update(map[], Listed(s1, s2, some, withData)), s2, n)
  {
    if n in s1.members && some != all && some != [] {
      TakenUpToLast(all, |some|, s1.members[n]);
      assert all[..|some|] == some;
    }
  }

  // --- paging -----------------------------------------------------------------------------------

  /** With everything up to the end of the log covered, the client is the collection. */
  lemma CaughtUp(client: Client, c: Collection)
    requires UpToToken(client, |c.log|, c)
    ensures client == c.members
  {
    forall n: Name ensures (n in client <==> n in c.members) && (n in client ==> client[n] == c.members[n]) {
      assert LastChange(c.log, n) <= |c.log|;
      assert Agrees(client, c, n);
    }
    assert client.Keys == c.members.Keys;
  }

  /** What a client has after a page, starting from nothing or from its token. */
  ghost function AfterPage(client: Client, req: Request, p: Page): Client
    requires p.Page?
  {
    Update(if req.Initial? then map[] else client, p.rows)
  }

  /** A client's standing: it has asked for nothing yet, or is up to its token. */
  ghost predicate InSync(client: Client, req: Request, c: Collection) {
    req.Since? ==> req.token <= |c.log| && UpToToken(client, req.token, c)
  }

  /**
   Every page, with writes landing between its reads, leaves the client equal to the server on every
   name with no change after the page's token; a truncated incremental page with a limit of at least
   one strictly advances the token.
  */
  lemma PageKeepsInSync(client: Client, req: Request, limit: Option<nat>, withData: bool, s0: Collection,
          s1: Collection, s2: Collection)
    requires Reads(s0, s1, s2) && InSync(client, req, s0)
    ensures
      var p := PageOf(req, limit, withData, s0, s1, s2);
      && p.Page? && p.token <= |s0.log|
      && InSync(AfterPage(client, req, p), Since(p.token), s2)
      && (!p.truncated ==> p.token == |s0.log|)
      && (p.truncated ==> limit.Some? && (req.Since? && limit.value >= 1 ==> p.token > req.token))
  {
    if req.Initial? {
      InitialPage(limit, withData, s0, s1, s2);
    } else {
      IncrementalPage(client, req.token, limit, withData, s0, s1, s2);
    }
  }

  /** Once writes stop, paging with a limit of at least one ends with the client equal to the collection. */
  method PageUntilDone(start: Client, first: Request, limit: Option<nat>, withData: bool, c: Collection)
          returns (client: Client, pages: nat)
    requires Valid(c) && InSync(start, first, c)
    requires limit.Some? ==> limit.value >= 1
    ensures client == c.members
    ensures pages <= |c.log| + 2
  {
    client := start;
    var req := first;
    pages := 0;
    while true
      invariant InSync(client, req, c)
      invariant req.Initial? ==> pages == 0
      invariant req.Since? ==> pages <= req.token + 1
      decreases req.Initial?, if req.Since? then |c.log| - req.token else 0
    {
      PageKeepsInSync(client, req, limit, withData, c, c, c);
      var p := SyncCollection(req, limit, withData, c, c, c);
      client := Update(if req.Initial? then map[] else client, p.rows);
      pages := pages + 1;
      if !p.truncated {
        CaughtUp(client, c);
        return;
      }
      req := Since(p.token);
    }
  }

  /** With a limit of zero the client asks for the same page for ever: the token does not move. */
  lemma LimitZeroNeverAdvances(from: nat, withData: bool, s0: Collection, s1: Collection, s2: Collection)
    requires Reads(s0, s1, s2) && from <= |s0.log|
    ensures PageOf(Since(from), Some(0), withData, s0, s1, s2) == Page(map[], from, from < |s0.log|)
  {
    var (latest, token, truncated) := Scan(s1.log, from, |s0.log|, map[], Some(0));
    assert latest == map[];
    assert Reported(map[], s2) == map[];
  }
}
