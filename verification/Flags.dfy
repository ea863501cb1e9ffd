/**
 Message flags (apps/imap/src/flags.ts): canonical spelling for the system flags, keywords compared
 case-insensitively. Case folding is ASCII's, the alphabet of an IMAP flag.
*/
module Flags {
  import opened Sets

  type Flag = string

  const RECENT: Flag := "\\Recent"
  const DELETED: Flag := "\\Deleted"
  const SYSTEM_FLAGS: seq<Flag> := ["\\Answered", "\\Flagged", "\\Deleted", "\\Seen", "\\Draft", "\\Recent"]

  datatype StoreOperation = Replace | Add | Remove

  function LowerChar(c: char): char {
    if 'A' <= c <= 'Z' then (c as int + 32) as char else c
  }

  function Lower(s: string): (r: string) {
    seq(|s|, i requires 0 <= i < |s| => LowerChar(s[i]))
  }

  function Spelling(known: seq<Flag>, f: Flag): (r: Flag)
    ensures Lower(r) == Lower(f)
    ensures r == f || r in known
  {
    if known == [] then f
    else if Lower(known[0]) == Lower(f) then known[0]
    else Spelling(known[1..], f)
  }

  /** System flags get their canonical spelling; anything else is kept as written. */
  function CanonicalFlag(f: Flag): (r: Flag)
    ensures Lower(r) == Lower(f)
  {
    Spelling(SYSTEM_FLAGS, f)
  }

  ghost function Folded(flags: seq<Flag>): set<string> {
    set f | f in flags :: Lower(f)
  }

  ghost predicate IsNormalized(flags: seq<Flag>) {
    && (forall f :: f in flags ==> f == CanonicalFlag(f) && Lower(f) != Lower(RECENT))
    && DistinctFolded(flags)
  }

  predicate HasFlag(flags: seq<Flag>, flag: Flag) {
    exists f :: f in flags && Lower(f) == Lower(flag)
  }

  function NormalizeInto(out: seq<Flag>, rest: seq<Flag>): (r: seq<Flag>)
    decreases rest
  {
    if rest == [] then out
    else
      var f := CanonicalFlag(rest[0]);
      if Lower(f) == Lower(RECENT) || HasFlag(out, f) then NormalizeInto(out, rest[1..])
      else NormalizeInto(out + [f], rest[1..])
  }

  /** Canonical, de-duplicated case-insensitively, without `\Recent`. */
  function NormalizeFlags(flags: seq<Flag>): (r: seq<Flag>) {
    NormalizeInto([], flags)
  }

  function WithoutFlags(current: seq<Flag>, drop: seq<Flag>): (r: seq<Flag>) {
    if current == [] then []
    else (if HasFlag(drop, current[0]) then [] else [current[0]]) + WithoutFlags(current[1..], drop)
  }

  /** The flags after a STORE. */
  function ApplyFlags(current: seq<Flag>, op: StoreOperation, flags: seq<Flag>): (r: seq<Flag>) {
    var change := NormalizeFlags(flags);
    match op
    case Replace => change
    case Add => NormalizeFlags(current + change)
    case Remove => WithoutFlags(current, change)
  }

  predicate SameFlags(a: seq<Flag>, b: seq<Flag>) {
    |a| == |b| && forall f :: f in b ==> HasFlag(a, f)
  }

  /** What `op` means on case-folded flag sets. */
  ghost function FoldedOp(current: set<string>, op: StoreOperation, change: set<string>): set<string> {
    match op
    case Replace => change - {Lower(RECENT)}
    case Add => current + change - {Lower(RECENT)}
    case Remove => current - (change - {Lower(RECENT)})
  }

  lemma HasFlagFolded(flags: seq<Flag>, f: Flag)
    ensures HasFlag(flags, f) <==> Lower(f) in Folded(flags)
  {
  }

  lemma CanonicalIdempotent(f: Flag)
    ensures CanonicalFlag(CanonicalFlag(f)) == CanonicalFlag(f)
  {
    SpellingDetermined(SYSTEM_FLAGS, f, CanonicalFlag(f));
  }

  lemma {:induction false} SpellingDetermined(known: seq<Flag>, f: Flag, g: Flag)
    requires Lower(f) == Lower(g)
    requires g == Spelling(known, f)
    ensures Spelling(known, g) == g
  {
    if known != [] && Lower(known[0]) != Lower(f) {
      SpellingDetermined(known[1..], f, g);
    }
  }

  lemma FoldedAppend(a: seq<Flag>, b: seq<Flag>)
    ensures Folded(a + b) == Folded(a) + Folded(b)
  {
    forall x ensures x in Folded(a + b) <==> x in Folded(a) + Folded(b) {
      if x in Folded(a) { var f :| f in a && Lower(f) == x; assert f in a + b; }
      if x in Folded(b) { var f :| f in b && Lower(f) == x; assert f in a + b; }
    }
  }

  lemma {:induction false} NormalizeIntoMeaning(out: seq<Flag>, rest: seq<Flag>)
    requires IsNormalized(out)
    ensures IsNormalized(NormalizeInto(out, rest))
    ensures Folded(NormalizeInto(out, rest)) == Folded(out) + Folded(rest) - {Lower(RECENT)}
    decreases rest
  {
    if rest == [] {
      assert Lower(RECENT) !in Folded(out);
    } else {
      var f := CanonicalFlag(rest[0]);
      CanonicalIdempotent(rest[0]);
      assert rest == [rest[0]] + rest[1..];
      FoldedAppend([rest[0]], rest[1..]);
      assert Folded([rest[0]]) == {Lower(f)} by { assert rest[0] in [rest[0]]; }
      if Lower(f) == Lower(RECENT) || HasFlag(out, f) {
        NormalizeIntoMeaning(out, rest[1..]);
      } else {
        FoldedAppend(out, [f]);
        assert Folded([f]) == {Lower(f)} by { assert f in [f]; }
        NormalizeIntoMeaning(out + [f], rest[1..]);
      }
    }
  }

  /** Normalising yields canonical, duplicate-free flags and loses nothing but `\Recent`. */
  lemma NormalizeMeaning(flags: seq<Flag>)
    ensures IsNormalized(NormalizeFlags(flags))
    ensures Folded(NormalizeFlags(flags)) == Folded(flags) - {Lower(RECENT)}
  {
    NormalizeIntoMeaning([], flags);
  }

  /** The flag is what the i-th one is canonically, and none before that has its name. */
  ghost predicate FirstSpelt(flags: seq<Flag>, f: Flag, i: int) {
    && 0 <= i < |flags| && f == CanonicalFlag(flags[i])
    && forall j :: 0 <= j < i ==> Lower(flags[j]) != Lower(f)
  }

  lemma SpeltLater(flags: seq<Flag>, f: Flag)
    requires flags != [] && Lower(flags[0]) != Lower(f) && exists i :: FirstSpelt(flags[1..], f, i)
    ensures exists i :: FirstSpelt(flags, f, i)
  {
    hide Lower, CanonicalFlag;
    var i :| FirstSpelt(flags[1..], f, i);
    forall j | 0 <= j < i + 1 ensures Lower(flags[j]) != Lower(f) {
      if j > 0 { assert flags[1..][j - 1] == flags[j]; }
    }
    assert FirstSpelt(flags, f, i + 1);
  }

  lemma {:induction false} IntoFirstSpelt(out: seq<Flag>, rest: seq<Flag>, f: Flag)
    requires f in NormalizeInto(out, rest) && f !in out
    ensures !HasFlag(out, f) && Lower(f) != Lower(RECENT) && exists i :: FirstSpelt(rest, f, i)
    decreases rest
  {
    hide Lower, CanonicalFlag;
    var f0 := CanonicalFlag(rest[0]);
    if Lower(f0) == Lower(RECENT) || HasFlag(out, f0) {
      IntoFirstSpelt(out, rest[1..], f);
      SpeltLater(rest, f);
    } else if f == f0 {
      assert FirstSpelt(rest, f, 0);
    } else {
      assert f !in out + [f0];
      IntoFirstSpelt(out + [f0], rest[1..], f);
      assert f0 in out + [f0] && forall g :: g in out ==> g in out + [f0];
      SpeltLater(rest, f);
    }
  }

  /** A keyword keeps the client's first spelling of it; a system flag gets its own. */
  lemma SpellingKept(flags: seq<Flag>, f: Flag)
    requires f in NormalizeFlags(flags)
    ensures exists i :: FirstSpelt(flags, f, i)
    ensures f in flags || f in SYSTEM_FLAGS
  {
    IntoFirstSpelt([], flags, f);
    var i :| FirstSpelt(flags, f, i);
    assert flags[i] in flags;
  }

  /** Adding and removing flags leaves the spelling of those that stay. */
  lemma StoreKeepsSpelling(current: seq<Flag>, op: StoreOperation, flags: seq<Flag>, f: Flag)
    requires IsNormalized(current) && f in current && op != Replace
    requires Lower(f) in Folded(ApplyFlags(current, op, flags))
    ensures f in ApplyFlags(current, op, flags)
  {
    var change := NormalizeFlags(flags);
    if op == Add {
      var g :| g in NormalizeFlags(current + change) && Lower(g) == Lower(f);
      SpellingKept(current + change, g);
      var i :| FirstSpelt(current + change, g, i);
      var k :| 0 <= k < |current| && current[k] == f;
      assert (current + change)[k] == f;
      assert i == k;
    } else {
      WithoutMeaning(current, change);
    }
  }

  lemma {:induction false} WithoutMeaning(current: seq<Flag>, drop: seq<Flag>)
    ensures forall f :: f in WithoutFlags(current, drop) <==> f in current && !HasFlag(drop, f)
  {
    if current != [] {
      WithoutMeaning(current[1..], drop);
      assert forall f :: f in current <==> f == current[0] || f in current[1..];
    }
  }

  lemma {:induction false} WithoutDistinct(current: seq<Flag>, drop: seq<Flag>)
    requires DistinctFolded(current)
    ensures DistinctFolded(WithoutFlags(current, drop))
  {
    if current != [] {
      var rest := current[1..];
      assert DistinctFolded(rest) by {
        assert forall i :: 0 <= i < |rest| ==> rest[i] == current[i + 1];
      }
      WithoutDistinct(rest, drop);
      WithoutMeaning(rest, drop);
      var w := WithoutFlags(rest, drop);
      forall i | 0 <= i < |w| ensures Lower(w[i]) != Lower(current[0]) {
        assert w[i] in rest;
        var k :| 0 <= k < |rest| && rest[k] == w[i];
        assert rest[k] == current[k + 1];
      }
    }
  }

  /** STORE acts on the case-folded flag set as its operation says, and keeps flags normalised. */
  lemma ApplyFlagsMeaning(current: seq<Flag>, op: StoreOperation, flags: seq<Flag>)
    requires IsNormalized(current)
    ensures IsNormalized(ApplyFlags(current, op, flags))
    ensures Folded(ApplyFlags(current, op, flags)) == FoldedOp(Folded(current), op, Folded(flags))
  {
    var change := NormalizeFlags(flags);
    NormalizeMeaning(flags);
    match op
    case Replace =>
    case Add =>
      NormalizeMeaning(current + change);
      FoldedAppend(current, change);
    case Remove =>
      WithoutMeaning(current, change);
      WithoutDistinct(current, change);
      var w := WithoutFlags(current, change);
      forall x ensures x in Folded(w) <==> x in Folded(current) - Folded(change) {
        if x in Folded(w) {
          var f :| f in w && Lower(f) == x;
          HasFlagFolded(change, f);
        }
        if x in Folded(current) - Folded(change) {
          var f :| f in current && Lower(f) == x;
          HasFlagFolded(change, f);
          assert f in w;
        }
      }
  }

  ghost predicate DistinctFolded(flags: seq<Flag>) {
    forall i, j :: 0 <= i < j < |flags| ==> Lower(flags[i]) != Lower(flags[j])
  }

  lemma {:induction false} FoldedLength(flags: seq<Flag>)
    requires DistinctFolded(flags)
    ensures |Folded(flags)| == |flags|
  {
    if flags == [] {
      assert Folded(flags) == {};
    } else {
      var n := |flags| - 1;
      var init, last := flags[..n], flags[n];
      assert flags == init + [last];
      FoldedAppend(init, [last]);
      assert Folded([last]) == {Lower(last)} by { assert last in [last]; }
      FoldedLength(init);
      assert Lower(last) !in Folded(init);
    }
  }

  /** On normalised flags the length-and-membership test decides equality of the flag sets. */
  lemma SameFlagsExact(a: seq<Flag>, b: seq<Flag>)
    requires IsNormalized(a) && IsNormalized(b)
    ensures SameFlags(a, b) <==> Folded(a) == Folded(b)
  {
    FoldedLength(a);
    FoldedLength(b);
    if SameFlags(a, b) {
      forall x | x in Folded(b) ensures x in Folded(a) {
        var f :| f in b && Lower(f) == x;
        assert HasFlag(a, f);
      }
      SubsetSameSize(Folded(a), Folded(b));
    }
    if Folded(a) == Folded(b) {
      forall f | f in b ensures HasFlag(a, f) {
        assert Lower(f) in Folded(b);
      }
    }
  }

  lemma DeletedIsSystem()
    ensures DELETED in SYSTEM_FLAGS && CanonicalFlag(DELETED) == DELETED
  {
    var two := SYSTEM_FLAGS[2..];
    assert two[0] == DELETED && Spelling(two, DELETED) == DELETED;
    assert Lower("\\Flagged")[1] != Lower(DELETED)[1];
    assert SYSTEM_FLAGS[1..][1..] == two && SYSTEM_FLAGS[1..][0] == "\\Flagged";
    assert |Lower("\\Answered")| != |Lower(DELETED)|;
  }

  /** A system flag is stored only in its canonical spelling, so an exact match finds it. */
  lemma SystemFlagExact(flags: seq<Flag>, flag: Flag)
    requires IsNormalized(flags)
    requires flag == CanonicalFlag(flag) && flag in SYSTEM_FLAGS
    ensures HasFlag(flags, flag) <==> flag in flags
  {
    if HasFlag(flags, flag) {
      var f :| f in flags && Lower(f) == Lower(flag);
      SpellingSame(SYSTEM_FLAGS, f, flag);
      assert f == CanonicalFlag(f);
    }
  }

  lemma {:induction false} SpellingSame(known: seq<Flag>, f: Flag, g: Flag)
    requires Lower(f) == Lower(g)
    requires g in known
    ensures Spelling(known, f) == Spelling(known, g)
  {
    if Lower(known[0]) != Lower(f) {
      assert g in known[1..];
      SpellingSame(known[1..], f, g);
    }
  }

  /** normalizeFlags as the loop it is: `seen` keys and the list built so far. */
  method NormalizeFlagsLoop(flags: seq<Flag>) returns (out: seq<Flag>)
    ensures out == NormalizeFlags(flags)
    ensures IsNormalized(out)
    ensures Folded(out) == Folded(flags) - {Lower(RECENT)}
  {
    var seen: set<string> := {};
    out := [];
    for i := 0 to |flags|
      invariant seen == Folded(out)
      invariant NormalizeInto(out, flags[i..]) == NormalizeFlags(flags)
    {
      var f := CanonicalFlag(flags[i]);
      var key := Lower(f);
      assert flags[i..][1..] == flags[i + 1..];
      assert HasFlag(out, f) <==> key in seen;
      if key == Lower(RECENT) || key in seen {
        continue;
      }
      FoldedAppend(out, [f]);
      assert Folded([f]) == {key} by { assert f in [f]; }
      seen := seen + {key};
      out := out + [f];
    }
    NormalizeMeaning(flags);
  }

  lemma {:induction false} SpellingOfKnown(known: seq<Flag>, i: nat)
    requires i < |known| && DistinctFolded(known)
    ensures Spelling(known, known[i]) == known[i]
  {
    if i > 0 {
      assert known[1..][i - 1] == known[i];
      SpellingOfKnown(known[1..], i - 1);
    }
  }

  /** The system flags, as written, are their own canonical spelling. */
  lemma SystemFlagsCanonical()
    ensures forall f :: f in SYSTEM_FLAGS ==> CanonicalFlag(f) == f
  {
    assert Lower("\\Flagged")[1] == 'f' && Lower("\\Deleted")[1] == 'd';
    assert DistinctFolded(SYSTEM_FLAGS) by {
      forall i, j | 0 <= i < j < |SYSTEM_FLAGS| ensures Lower(SYSTEM_FLAGS[i]) != Lower(SYSTEM_FLAGS[j]) {
        assert |Lower(SYSTEM_FLAGS[i])| == |SYSTEM_FLAGS[i]| && |Lower(SYSTEM_FLAGS[j])| == |SYSTEM_FLAGS[j]|;
      }
    }
    forall f | f in SYSTEM_FLAGS ensures CanonicalFlag(f) == f {
      var i :| 0 <= i < |SYSTEM_FLAGS| && SYSTEM_FLAGS[i] == f;
      SpellingOfKnown(SYSTEM_FLAGS, i);
    }
  }
}
