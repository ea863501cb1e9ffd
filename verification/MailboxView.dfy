/**
 The view as the object it is: fields updated by splice, push, set and delete, proved step for step
 against the value-level `SyncView` and `ExpungedView`.
*/
module ViewObject {
  import opened Sets
  import opened MailStore
  import opened ViewModel
  import opened ViewProofs
  import opened Sessions

  datatype SyncOutcome = Gone | Synced(responses: seq<Response>)

  ghost predicate Distinct(s: seq<Uid>) {
    forall i, j :: 0 <= i < j < |s| ==> s[i] != s[j]
  }

  // --- splicing ---------------------------------------------------------------------------------

  lemma {:induction false} NumbersNone(uids: seq<Uid>, gone: set<Uid>, n: nat)
    requires n <= |uids| && forall u :: u in uids[n..] ==> u !in gone
    ensures ExpungeNumbers(uids, gone) == ExpungeNumbers(uids[..n], gone)
    decreases |uids|
  {
    if n == |uids| {
      assert uids[..n] == uids;
    } else {
      var m := |uids| - 1;
      assert uids[m] in uids[n..];
      assert uids[..m][n..] == uids[n..m];
      assert forall u :: u in uids[n..m] ==> u in uids[n..];
      NumbersNone(uids[..m], gone, n);
      assert uids[..m][..n] == uids[..n];
    }
  }

  /** From the entry at q, gone, up to p, nothing gone in between. */
  lemma GapStep(uids: seq<Uid>, gone: set<Uid>, q: nat, p: nat)
    requires q < p <= |uids| && uids[q] in gone && forall u :: u in uids[q + 1..p] ==> u !in gone
    ensures Without(uids[q..], gone) == uids[q + 1..p] + Without(uids[p..], gone)
    ensures ExpungeNumbers(uids[..p], gone) == [Expunged(q + 1)] + ExpungeNumbers(uids[..q], gone)
  {
    hide Without;
    hide ExpungeNumbers;
    assert uids[q..] == [uids[q]] + (uids[q + 1..p] + uids[p..]);
    WithoutConcat([uids[q]], uids[q + 1..p] + uids[p..], gone);
    WithoutConcat(uids[q + 1..p], uids[p..], gone);
    WithoutNone(uids[q + 1..p], gone);
    WithoutOne(uids[q], gone);
    assert uids[..p][q + 1..] == uids[q + 1..p];
    NumbersNone(uids[..p], gone, q + 1);
    assert uids[..p][..q + 1] == uids[..q + 1];
    NumbersLast(uids[..q + 1], gone);
    assert uids[..q + 1][..q] == uids[..q];
  }

  lemma NumbersLast(uids: seq<Uid>, gone: set<Uid>)
    requires uids != []
    ensures ExpungeNumbers(uids, gone) ==
      (if uids[|uids| - 1] in gone then [Expunged(|uids|)] else []) + ExpungeNumbers(uids[..|uids| - 1], gone)
  {
  }

  class MailboxView {
    var uids: seq<Uid>
    var known: map<Uid, Modseq>
    var pending: set<Uid>
    var highestModseq: Modseq

    ghost function Value(): (v: View)
      reads this
    {
      View(uids, known, pending, highestModseq)
    }

    ghost predicate Valid()
      reads this
    {
      WellFormed(Value())
    }

    /** Load the view at SELECT time: the modseq first, then the rows. */
    constructor Open(probe: Mailbox, snapshot: Mailbox)
      ensures Valid() && Value() == OpenView(probe, snapshot)
    {
      uids := Uids(snapshot);
      known := map u | u in snapshot.messages :: snapshot.messages[u].modseq;
      pending := {};
      highestModseq := probe.highestModseq;
      SortedAscending(snapshot.messages.Keys);
      ElementsSorted(snapshot.messages.Keys);
    }

    /** The sequence number of a UID, by binary search. */
    method SeqOf(uid: Uid) returns (r: Option<nat>)
      requires Ascending(uids)
      ensures r.Some? <==> uid in uids
      ensures r.Some? ==> 1 <= r.value <= |uids| && uids[r.value - 1] == uid
    {
      var lo, hi := 0, |uids| - 1;
      while lo <= hi
        invariant 0 <= lo <= hi + 1 <= |uids|
        invariant forall i :: 0 <= i < lo ==> uids[i] < uid
        invariant forall i :: hi < i < |uids| ==> uids[i] > uid
      {
        var mid := (lo + hi) / 2;
        var v := uids[mid];
        if v == uid {
          return Some(mid + 1);
        }
        if v < uid {
          lo := mid + 1;
        } else {
          hi := mid - 1;
        }
      }
      r := None;
    }

    /** The first position whose UID is at least `uid`. */
    method LowerBound(uid: Uid) returns (lo: nat)
      requires Ascending(uids)
      ensures lo <= |uids|
      ensures forall i :: 0 <= i < lo ==> uids[i] < uid
      ensures forall i :: lo <= i < |uids| ==> uids[i] >= uid
    {
      lo := 0;
      var hi := |uids|;
      while lo < hi
        invariant lo <= hi <= |uids|
        invariant forall i :: 0 <= i < lo ==> uids[i] < uid
        invariant forall i :: hi <= i < |uids| ==> uids[i] >= uid
      {
        var mid := (lo + hi) / 2;
        if uids[mid] < uid {
          lo := mid + 1;
        } else {
          hi := mid;
        }
      }
    }

    method NoteModseq(uid: Uid, modseq: Modseq)
      requires Valid()
      modifies this`known
      ensures Valid()
      ensures Value() == old(Value()).(known := if uid in old(known) then old(known)[uid := modseq] else old(known))
    {
      if uid in known {
        known := known[uid := modseq];
      }
    }

    /** splice(p, 1), known.delete, pending.delete. */
    method DropAt(p: nat)
      requires Valid() && p < |uids|
      modifies this
      ensures Valid()
      ensures Value() == ExpungedView(old(Value()), {old(uids)[p]})
      ensures uids == old(uids)[..p] + old(uids)[p + 1..]
    {
      var u := uids[p];
      SpliceIsWithout(uids, p);
      WithoutAscending(uids, {u});
      uids := uids[..p] + uids[p + 1..];
      known := known - {u};
      pending := pending - {u};
      assert known.Keys == Elements(uids);
    }

    /** Our own EXPUNGE or MOVE under QRESYNC: one "* VANISHED" for the UIDs the client knew. */
    method ExpungeVanished(gone: seq<Uid>) returns (out: seq<Response>)
      requires Valid()
      modifies this
      ensures Valid()
      ensures Value() == ExpungedView(old(Value()), Elements(gone))
      ensures out == ExpungeResponses(old(uids), Elements(gone), true)
    {
      hide Without;
      hide Sorted;
      ghost var v := Value();
      var told: set<Uid> := {};
      DropNone(v);
      assert Elements(gone[..0]) == {};
      for i := 0 to |gone|
        invariant Valid()
        invariant Value() == ExpungedView(v, Elements(gone[..i]))
        invariant told == KnownGone(v.uids, Elements(gone[..i]))
      {
        var u := gone[i];
        ghost var done := Elements(gone[..i]);
        ElementsStep(gone, i);
        var s := SeqOf(u);
        if s == None {
          SkipUnknown(v, done, u);
          assert u in v.uids ==> u in done;
          continue;
        }
        DropOneMore(v, done, u);
        DropAt(s.value - 1);
        told := told + {u};
      }
      assert gone[..|gone|] == gone;
      out := if told == {} then [] else [Vanished(Sorted(told))];
    }

    /**
     The other form: "* n EXPUNGE" for each, highest number first, so that none is renumbered. Every
     caller names each UID once; one named twice would cost the client a second, unrelated slot.
    */
    method ExpungeNumbered(gone: seq<Uid>) returns (out: seq<Response>)
      requires Valid() && Distinct(gone)
      modifies this
      ensures Valid()
      ensures Value() == ExpungedView(old(Value()), Elements(gone))
      ensures out == ExpungeResponses(old(uids), Elements(gone), false)
    {
      hide Without;
      hide ExpungedView;
      hide ExpungeNumbers;
      hide DroppedFrom;
      hide Sorted;
      hide Elements;
      ghost var v := Value();
      ghost var all := Elements(gone);
      var places := Places(gone);
      var order := Sorted(places);
      SortedAscending(places);
      out := [];
      var k := |order|;
      ghost var p := |uids|;
      StartAtEnd(v, all);
      while k > 0
        invariant 0 <= k <= |order| && p == if k == |order| then |v.uids| else order[k]
        invariant Valid() && p <= |v.uids|
        invariant Value() == DroppedFrom(v, all, p)
        invariant out + ExpungeNumbers(v.uids[..p], all) == ExpungeNumbers(v.uids, all)
        decreases k
      {
        k := k - 1;
        var q := order[k];
        NoPlaceBetween(v.uids, all, order, places, k, p);
        GapStep(v.uids, all, q, p);
        DropStep(v, all, q, p);
        DropAt(q);
        assert out + ([Expunged(q + 1)] + ExpungeNumbers(v.uids[..q], all)) == out + [Expunged(q + 1)]
          + ExpungeNumbers(v.uids[..q], all);
        out := out + [Expunged(q + 1)];
        p := q;
      }
      NothingBelow(v.uids, all, order, places, p);
      AllDropped(v, all, p);
      assert out == out + [];
    }

    method ExpungeNow(gone: seq<Uid>, vanished: bool) returns (out: seq<Response>)
      requires Valid() && (!vanished ==> Distinct(gone))
      modifies this
      ensures Valid()
      ensures Value() == ExpungedView(old(Value()), Elements(gone))
      ensures out == ExpungeResponses(old(uids), Elements(gone), vanished)
    {
      if vanished {
        out := ExpungeVanished(gone);
      } else {
        out := ExpungeNumbered(gone);
      }
    }

    /** Deliver pending expunges, when the command allows them. */
    method FlushPending(opts: SyncOptions) returns (out: seq<Response>)
      requires Valid()
      modifies this
      ensures Valid()
      ensures (Value(), out) == Flush(old(Value()), opts)
    {
      hide Without;
      hide ExpungeResponses;
      if !opts.allowExpunge || pending == {} {
        return [];
      }
      SortedAscending(pending);
      ElementsSorted(pending);
      hide Sorted;
      out := ExpungeNow(Sorted(pending), opts.qresync);
    }

    method MarkMissing(present: set<Uid>)
      modifies this`pending
      ensures pending == old(pending) + Missing(uids, present)
    {
      ghost var was := pending;
      assert Missing(uids[..0], present) == {};
      for i := 0 to |uids|
        invariant pending == was + Missing(uids[..i], present)
      {
        MissingStep(uids, i, present);
        if uids[i] !in present {
          pending := pending + {uids[i]};
        }
      }
      assert uids[..|uids|] == uids;
    }

    /** Expunges: count first, list only when something went. */
    method NoticeExpunges(s2: Mailbox, s3: Mailbox)
      requires Valid()
      modifies this`pending
      ensures Valid()
      ensures pending == SyncPending(old(Value()), s2, s3)
    {
      PendingInView(Value(), s2, s3);
      var maxUid := MaxUid(uids);
      var live := |uids| - |pending|;
      if live > 0 && CountUpTo(s2, maxUid) != live {
        MarkMissing(UidsUpTo(s3, maxUid));
      }
    }

    /** Arrivals: UIDs above everything known, in UID order. */
    method PushArrivals(arrivals: seq<FlagRow>)
      modifies this
      ensures Value() == Arrived(old(Value()), arrivals)
    {
      ghost var v := Value();
      assert arrivals[..0] == [];
      for i := 0 to |arrivals|
        invariant Value() == Arrived(v, arrivals[..i])
      {
        assert arrivals[..i + 1][..i] == arrivals[..i];
        uids := uids + [arrivals[i].uid];
        known := known[arrivals[i].uid := arrivals[i].modseq];
      }
      assert arrivals[..|arrivals|] == arrivals;
    }

    /** Flag changes to messages the client already has. */
    method TellNews(changed: seq<FlagRow>, maxUid: Uid, condstore: bool) returns (out: seq<Response>)
      requires Ascending(uids)
      modifies this
      ensures (Value(), out) == FlagNews(old(Value()), changed, maxUid, condstore)
    {
      ghost var v := Value();
      out := [];
      assert changed[..0] == [];
      for i := 0 to |changed|
        invariant Ascending(uids)
        invariant (Value(), out) == FlagNews(v, changed[..i], maxUid, condstore)
      {
        assert changed[..i + 1][..i] == changed[..i];
        var c := changed[i];
        if c.uid > maxUid || c.uid in pending {
          continue;
        }
        if c.uid in known && c.modseq <= known[c.uid] {
          continue;
        }
        var s := SeqOf(c.uid);
        if s == None {
          continue;
        }
        IndexUnique(uids, c.uid, s.value - 1);
        known := known[c.uid := c.modseq];
        out := out + [Fetch(s.value, c.uid, c.flags, if condstore then Some(c.modseq) else None)];
      }
      assert changed[..|changed|] == changed;
    }

    /**
     One sync. The mailbox is read four times, with any number of commits between the reads; the
     view and the responses are those of `SyncView`. A mailbox that is gone changes nothing.
    */
    method Sync(probe: Option<Mailbox>, s1: Mailbox, s2: Mailbox, s3: Mailbox, opts: SyncOptions)
            returns (r: SyncOutcome)
      requires Valid()
      modifies this
      ensures probe.None? ==> r == Gone && Value() == old(Value())
      ensures probe.Some? ==>
        r.Synced? && (Value(), r.responses) == SyncView(old(Value()), probe.value, s1, s2, s3, opts)
      ensures Valid()
    {
      if probe == None {
        return Gone;
      }
      ghost var v := Value();
      hide SyncPending;
      hide Flush;
      hide Arrivals;
      hide Arrived;
      hide FlagNews;
      hide ChangedSince;
      if probe.value.highestModseq == highestModseq {
        var flushed := FlushPending(opts);
        return Synced(flushed);
      }
      var changed := ChangedSince(s1, highestModseq);
      var maxUid := MaxUid(uids);
      MaxUidBounds(uids);
      NoticeExpunges(s2, s3);
      FlushUids(Value(), opts);
      var responses := FlushPending(opts);
      ghost var f := Value();
      var arrivals := Arrivals(changed, maxUid);
      ArrivalsFit(f, s1, v.highestModseq, maxUid);
      PushArrivals(arrivals);
      assert responses + [] == responses;
      if arrivals != [] {
        responses := responses + [Exists(|uids|)];
      }
      FlagNewsKeepsForm(Value(), changed, maxUid, opts.condstore);
      var fetches := TellNews(changed, maxUid, opts.condstore);
      highestModseq := probe.value.highestModseq;
      r := Synced(responses + fetches);
    }

    /** The positions of those of `gone` that are in the view. */
    method Places(gone: seq<Uid>) returns (places: set<nat>)
      requires Valid()
      ensures places == PlacesOf(uids, Elements(gone))
    {
      places := {};
      for i := 0 to |gone|
        invariant places == PlacesOf(uids, Elements(gone[..i]))
      {
        ElementsStep(gone, i);
        var s := SeqOf(gone[i]);
        if s != None {
          places := places + {s.value - 1};
        }
      }
      assert gone[..|gone|] == gone;
    }
  }

  lemma MissingStep(uids: seq<Uid>, i: nat, present: set<Uid>)
    requires i < |uids|
    ensures Missing(uids[..i + 1], present) == Missing(uids[..i], present) + if uids[i] in present then {}
            else {uids[i]}
  {
    assert uids[..i + 1] == uids[..i] + [uids[i]];
  }

  lemma PendingInView(v: View, s2: Mailbox, s3: Mailbox)
    requires WellFormed(v)
    ensures WellFormed(v.(pending := SyncPending(v, s2, s3)))
  {
  }

  lemma FlushUids(v: View, opts: SyncOptions)
    ensures forall u :: u in Flush(v, opts).0.uids ==> u in v.uids
    ensures Flush(v, opts).0.highestModseq == v.highestModseq
  {
  }

  lemma ArrivalsFit(f: View, s1: Mailbox, since: Modseq, maxUid: Uid)
    requires WellFormed(f) && forall u :: u in f.uids ==> u <= maxUid
    ensures WellFormed(Arrived(f, Arrivals(ChangedSince(s1, since), maxUid)))
  {
    var arrivals := Arrivals(ChangedSince(s1, since), maxUid);
    ChangedSinceMeaning(s1, since);
    ArrivalsAscending(ChangedSince(s1, since), maxUid);
    ArrivedUids(f, arrivals, maxUid);
    assert forall u :: u in f.known ==> u in Elements(f.uids);
    ArrivedKnown(f, arrivals);
  }

  lemma FlagNewsKeepsForm(w: View, changed: seq<FlagRow>, maxUid: Uid, condstore: bool)
    requires WellFormed(w)
    ensures WellFormed(FlagNews(w, changed, maxUid, condstore).0)
  {
    if changed != [] {
      var init := changed[..|changed| - 1];
      FlagNewsKeepsForm(w, init, maxUid, condstore);
      var v := FlagNews(w, init, maxUid, condstore).0;
      var c := changed[|changed| - 1];
      if IsNews(v, maxUid, c) {
        assert c.uid in Elements(v.uids);
        assert v.known[c.uid := c.modseq].Keys == v.known.Keys;
      }
    }
  }

  lemma IndexUnique(uids: seq<Uid>, u: Uid, i: nat)
    requires Ascending(uids) && i < |uids| && uids[i] == u
    ensures IndexOf(uids, u) == i
  {
  }

  ghost function PlacesOf(uids: seq<Uid>, gone: set<Uid>): set<nat> {
    set i: nat | i < |uids| && uids[i] in gone
  }

  /** The view once every entry of `gone` from position p on has been dropped. */
  ghost function DroppedFrom(v: View, gone: set<Uid>, p: nat): View
    requires p <= |v.uids|
  {
    var there := set u | u in v.uids[p..] && u in gone;
    v.(uids := v.uids[..p] + Without(v.uids[p..], gone), known := v.known - there, pending := v.pending - there)
  }

  lemma StartAtEnd(v: View, gone: set<Uid>)
    ensures DroppedFrom(v, gone, |v.uids|) == v
    ensures [] + ExpungeNumbers(v.uids[..|v.uids|], gone) == ExpungeNumbers(v.uids, gone)
  {
    assert v.uids[..|v.uids|] == v.uids;
    WithoutNothing(gone);
    assert (set u | u in v.uids[|v.uids|..] && u in gone) == {};
    assert v.known - {} == v.known && v.pending - {} == v.pending;
  }

  lemma ThereStep(uids: seq<Uid>, gone: set<Uid>, q: nat, p: nat)
    requires q < p <= |uids| && uids[q] in gone && forall u :: u in uids[q + 1..p] ==> u !in gone
    ensures (set x | x in uids[q..] && x in gone) == (set x | x in uids[p..] && x in gone) + {uids[q]}
  {
    assert uids[q..] == [uids[q]] + uids[q + 1..p] + uids[p..];
  }

  lemma DropStep(v: View, gone: set<Uid>, q: nat, p: nat)
    requires WellFormed(v) && q < p <= |v.uids| && v.uids[q] in gone && forall u :: u in v.uids[q + 1..p] ==> u !in gone
    requires Without(v.uids[q..], gone) == v.uids[q + 1..p] + Without(v.uids[p..], gone)
    ensures var f := DroppedFrom(v, gone, p);
      && q < |f.uids| && f.uids[q] == v.uids[q]
      && (Ascending(f.uids) ==> ExpungedView(f, {v.uids[q]}) == DroppedFrom(v, gone, q))
  {
    hide Without, WellFormed;
    var f := DroppedFrom(v, gone, p);
    var u := v.uids[q];
    ThereStep(v.uids, gone, q, p);
    var there, there' := (set x | x in v.uids[p..] && x in gone), (set x | x in v.uids[q..] && x in gone);
    assert v.known - there - {u} == v.known - there';
    assert v.pending - there - {u} == v.pending - there';
    if Ascending(f.uids) {
      hide Ascending;
      SpliceIsWithout(f.uids, q);
      assert f.uids[..q] == v.uids[..q];
      assert f.uids[q + 1..] == v.uids[q + 1..p] + Without(v.uids[p..], gone);
    }
  }

  lemma AllDropped(v: View, gone: set<Uid>, p: nat)
    requires WellFormed(v) && p <= |v.uids| && forall u :: u in v.uids[..p] ==> u !in gone
    ensures DroppedFrom(v, gone, p) == ExpungedView(v, gone)
    ensures ExpungeNumbers(v.uids[..p], gone) == []
  {
    hide Without;
    var there := set u | u in v.uids[p..] && u in gone;
    assert v.uids == v.uids[..p] + v.uids[p..];
    WithoutConcat(v.uids[..p], v.uids[p..], gone);
    WithoutNone(v.uids[..p], gone);
    forall u | u in v.known && u in gone ensures u in there {
      assert u in Elements(v.uids);
    }
    assert v.known - there == v.known - gone;
    assert v.pending - there == v.pending - gone;
    NumbersNone(v.uids[..p], gone, 0);
    assert v.uids[..p][..0] == [];
  }

  lemma SkipUnknown(v: View, done: set<Uid>, u: Uid)
    requires WellFormed(v) && u !in Without(v.uids, done)
    ensures ExpungedView(v, done) == ExpungedView(v, done + {u})
  {
    hide Without;
    WithoutTwice(v.uids, done, {u});
    WithoutNone(Without(v.uids, done), {u});
    assert u in v.known ==> u in Elements(v.uids);
    assert v.known - done == v.known - (done + {u});
    assert v.pending - done == v.pending - (done + {u});
  }

  lemma DropOneMore(v: View, done: set<Uid>, u: Uid)
    ensures ExpungedView(ExpungedView(v, done), {u}) == ExpungedView(v, done + {u})
  {
    hide Without;
    WithoutTwice(v.uids, done, {u});
    assert v.known - done - {u} == v.known - (done + {u});
    assert v.pending - done - {u} == v.pending - (done + {u});
  }

  lemma DropNone(v: View)
    ensures ExpungedView(v, {}) == v
  {
    WithoutNone(v.uids, {});
    assert v.known - {} == v.known && v.pending - {} == v.pending;
  }

  lemma NoPlaceBetween(uids: seq<Uid>, gone: set<Uid>, order: seq<nat>, places: set<nat>, k: nat, p: nat)
    requires places == PlacesOf(uids, gone)
    requires order == Sorted(places) && Ascending(order) && k < |order|
    requires p == if k + 1 == |order| then |uids| else order[k + 1]
    ensures order[k] < p <= |uids| && uids[order[k]] in gone && forall u :: u in uids[order[k] + 1..p] ==> u !in gone
  {
    hide Sorted;
    assert order[k] in order;
    if k + 1 < |order| { assert order[k + 1] in order; }
    forall i | order[k] < i < p ensures uids[i] !in gone {
      assert i in places ==> i in order;
      assert forall j :: 0 <= j < |order| ==> (j <= k ==> order[j] <= order[k]) && (j > k ==> order[j] >= p);
    }
  }

  lemma NothingBelow(uids: seq<Uid>, gone: set<Uid>, order: seq<nat>, places: set<nat>, p: nat)
    requires places == PlacesOf(uids, gone)
    requires order == Sorted(places) && Ascending(order)
    requires p <= |uids| && p == if order == [] then |uids| else order[0]
    ensures forall u :: u in uids[..p] ==> u !in gone
  {
    hide Sorted;
    forall i | 0 <= i < p ensures uids[i] !in gone {
      assert i in places ==> i in order;
      assert forall j :: 0 <= j < |order| ==> order[j] >= p;
    }
  }
}
