/** Ordered listings of finite sets: what a query with `ORDER BY uid` answers. */
module Sets {

  datatype Option<+T> = None | Some(value: T)

  ghost predicate Ascending(s: seq<nat>) {
    forall i, j :: 0 <= i < j < |s| ==> s[i] < s[j]
  }

  function Elements<T(==)>(s: seq<T>): (r: set<T>) {
    set x | x in s
  }

  lemma MinimumExists(s: set<nat>, a: nat)
    requires a in s
    ensures exists x :: x in s && forall y :: y in s ==> x <= y
    decreases a
  {
    if b :| b in s && b < a {
      MinimumExists(s, b);
    } else {
      assert forall y :: y in s ==> a <= y;
    }
  }

  function Minimum(s: set<nat>): (x: nat)
    requires s != {}
    ensures x in s && forall y :: y in s ==> x <= y
  {
    var a :| a in s;
    MinimumExists(s, a);
    var x :| x in s && forall y :: y in s ==> x <= y;
    x
  }

  /** The elements of `s`, ascending. */
  function Sorted(s: set<nat>): (r: seq<nat>)
    ensures forall x :: x in r <==> x in s
    ensures |r| == |s|
  {
    if s == {} then []
    else
      var x := Minimum(s);
      [x] + Sorted(s - {x})
  }

  lemma AscendingPrepend(x: nat, s: seq<nat>)
    requires Ascending(s) && forall y :: y in s ==> x < y
    ensures Ascending([x] + s)
  {
    assert forall i :: 0 <= i < |s| ==> s[i] in s;
  }

  lemma {:induction false} SortedAscending(s: set<nat>)
    ensures Ascending(Sorted(s))
  {
    if s != {} {
      var x := Minimum(s);
      SortedAscending(s - {x});
      AscendingPrepend(x, Sorted(s - {x}));
    }
  }

  /** Two ascending listings of the same elements are the same listing. */
  lemma AscendingUnique(a: seq<nat>, b: seq<nat>)
    requires Ascending(a) && Ascending(b)
    requires forall x :: x in a <==> x in b
    ensures a == b
  {
    if a == [] {
      assert forall i :: 0 <= i < |b| ==> b[i] in a;
    } else {
      assert a[0] in b;
      assert b[0] in a;
      assert a[0] == b[0];
      forall x ensures x in a[1..] <==> x in b[1..] {
        if x in a[1..] { assert x in a; assert x in b; assert x != a[0]; }
        if x in b[1..] { assert x in b; assert x in a; assert x != b[0]; }
      }
      AscendingUnique(a[1..], b[1..]);
    }
  }

  lemma AscendingAppend(s: seq<nat>, x: nat)
    requires Ascending(s) && forall y :: y in s ==> y < x
    ensures Ascending(s + [x])
  {
    assert forall i :: 0 <= i < |s| ==> s[i] in s;
  }

  lemma SortedOf(a: seq<nat>, s: set<nat>)
    requires Ascending(a)
    requires forall x :: x in a <==> x in s
    ensures Sorted(s) == a
  {
    SortedAscending(s);
    AscendingUnique(a, Sorted(s));
  }

  /** An ascending sequence is as long as its set of elements. */
  lemma AscendingLength(a: seq<nat>)
    requires Ascending(a)
    ensures |Elements(a)| == |a|
  {
    SortedOf(a, Elements(a));
  }

  /** `s` without the elements in `gone`, in order. */
  function Without(s: seq<nat>, gone: set<nat>): (r: seq<nat>)
    ensures forall u :: u in r <==> u in s && u !in gone
    ensures |r| <= |s|
  {
    if s == [] then []
    else
      var n := |s| - 1;
      assert s == s[..n] + [s[n]];
      Without(s[..n], gone) + if s[n] in gone then [] else [s[n]]
  }

  lemma {:induction false} WithoutAscending(s: seq<nat>, gone: set<nat>)
    requires Ascending(s)
    ensures Ascending(Without(s, gone))
  {
    if s != [] {
      var n := |s| - 1;
      WithoutAscending(s[..n], gone);
      if s[n] !in gone {
        assert forall u :: u in s[..n] ==> u < s[n];
        AscendingAppend(Without(s[..n], gone), s[n]);
      }
    }
  }

  lemma {:induction false} WithoutNone(s: seq<nat>, gone: set<nat>)
    requires forall u :: u in s ==> u !in gone
    ensures Without(s, gone) == s
  {
    if s != [] {
      var n := |s| - 1;
      assert s == s[..n] + [s[n]];
      WithoutNone(s[..n], gone);
    }
  }

  lemma {:induction false} WithoutConcat(a: seq<nat>, b: seq<nat>, gone: set<nat>)
    ensures Without(a + b, gone) == Without(a, gone) + Without(b, gone)
  {
    if b == [] {
      assert a + b == a;
    } else {
      var n := |b| - 1;
      assert (a + b)[..|a + b| - 1] == a + b[..n];
      WithoutConcat(a, b[..n], gone);
    }
  }

  lemma WithoutStep(s: seq<nat>, i: nat, gone: set<nat>)
    requires i < |s|
    ensures Without(s[..i + 1], gone) == Without(s[..i], gone) + if s[i] in gone then [] else [s[i]]
  {
    assert s[..i + 1][..i] == s[..i];
  }

  lemma WithoutSorted(s: set<nat>, gone: set<nat>)
    ensures Without(Sorted(s), gone) == Sorted(s - gone)
  {
    SortedAscending(s);
    WithoutAscending(Sorted(s), gone);
    SortedOf(Without(Sorted(s), gone), s - gone);
  }

  lemma WithoutNothing(gone: set<nat>)
    ensures Without([], gone) == [] && Elements<nat>([]) == {}
  {
  }

  lemma ElementsStep(s: seq<nat>, i: nat)
    requires i < |s|
    ensures Elements(s[..i + 1]) == Elements(s[..i]) + {s[i]}
  {
    assert s[..i + 1] == s[..i] + [s[i]];
  }

  lemma ElementsSorted(s: set<nat>)
    ensures Elements(Sorted(s)) == s
  {
  }

  lemma WithoutLast(s: seq<nat>, gone: set<nat>)
    requires s != []
    ensures Without(s, gone) == Without(s[..|s| - 1], gone) + if s[|s| - 1] in gone then [] else [s[|s| - 1]]
  {
  }

  lemma WithoutOne(x: nat, gone: set<nat>)
    ensures Without([x], gone) == if x in gone then [] else [x]
  {
    assert [x][..0] == [];
    WithoutNothing(gone);
  }

  lemma {:induction false} WithoutTwice(s: seq<nat>, a: set<nat>, b: set<nat>)
    ensures Without(Without(s, a), b) == Without(s, a + b)
  {
    hide Without;
    if s == [] {
      WithoutNothing(a);
      WithoutNothing(b);
      WithoutNothing(a + b);
    } else {
      var init, last := s[..|s| - 1], s[|s| - 1];
      WithoutLast(s, a);
      WithoutLast(s, a + b);
      WithoutTwice(init, a, b);
      if last in a {
        assert Without(s, a) == Without(init, a);
      } else {
        WithoutConcat(Without(init, a), [last], b);
        WithoutOne(last, b);
      }
    }
  }

  lemma WithoutMiddle(a: seq<nat>, x: nat, b: seq<nat>)
    requires x !in a && x !in b
    ensures Without(a + ([x] + b), {x}) == a + b
  {
    hide Without;
    WithoutConcat(a, [x] + b, {x});
    WithoutConcat([x], b, {x});
    WithoutNone(a, {x});
    WithoutNone(b, {x});
    WithoutOne(x, {x});
    assert [] + b == b;
  }

  lemma AscendingParts(s: seq<nat>, p: nat)
    requires Ascending(s) && p < |s|
    ensures s[p] !in s[..p] && s[p] !in s[p + 1..]
  {
    var a, b := s[..p], s[p + 1..];
    forall i | 0 <= i < |a| ensures a[i] != s[p] {
      assert a[i] == s[i];
    }
    forall i | 0 <= i < |b| ensures b[i] != s[p] {
      assert b[i] == s[p + 1 + i];
    }
  }

  lemma SplitAt(s: seq<nat>, p: nat)
    requires p < |s|
    ensures s == s[..p] + ([s[p]] + s[p + 1..])
  {
    assert s[p..] == [s[p]] + s[p + 1..];
    assert s == s[..p] + s[p..];
  }

  /** Splicing one element out of an ascending list. */
  lemma SpliceIsWithout(s: seq<nat>, p: nat)
    requires Ascending(s) && p < |s|
    ensures s[..p] + s[p + 1..] == Without(s, {s[p]})
  {
    AscendingParts(s, p);
    hide Ascending, Without;
    SplitAt(s, p);
    WithoutMiddle(s[..p], s[p], s[p + 1..]);
  }

  lemma SubsetSize<T>(a: set<T>, b: set<T>)
    requires a <= b
    ensures |a| <= |b|
  {
    assert b == a + (b - a);
  }

  lemma SubsetSameSize<T>(a: set<T>, b: set<T>)
    requires b <= a && |a| == |b|
    ensures a == b
  {
    assert a == b + (a - b);
    assert |a| == |b| + |a - b|;
    assert a - b == {};
  }
}
