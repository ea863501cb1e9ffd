/**
 DKIM keys of one domain (apps/submission/src/dkim.ts, dkim-rotation.ts): creation and rotation steps,
 each one transaction under the domain's advisory lock. A rotation pass reads before it takes the
 lock, so any step may run on keys that have changed since; only its guard, re-read under the lock,
 protects it. Instants are in milliseconds.
*/
module Dkim {
  import opened Sets
  import opened Decimal

  type KeyId = nat

  const DAY := 86_400_000
  const OVERLAP := 7 * DAY

  datatype Algorithm = Ed25519 | Rsa

  datatype KeyState = Pending | Active | Retiring | Retired

  datatype Key = Key(algorithm: Algorithm, selector: string, state: KeyState, activeFrom: int, retireAfter: Option<int>,
      retiredAt: Option<int>)

  type Keys = map<KeyId, Key>

  // --- selectors --------------------------------------------------------------------------------

  /** `pr<yyyy><mm>r` or `pr<yyyy><mm>e`; `month` is the six digits of the date. */
  function SelectorFor(month: string, algorithm: Algorithm): (s: string) {
    "pr" + month + if algorithm == Rsa then "r" else "e"
  }

  function Selectors(keys: Keys): (s: set<string>) {
    set k | k in keys :: keys[k].selector
  }

  function Candidates(base: string, n: nat): (s: set<string>) {
    if n <= 2 then {} else Candidates(base, n - 1) + {base + Numeral(n - 1)}
  }

  lemma {:induction false} CandidatesDistinct(base: string, n: nat)
    requires n >= 2
    ensures |Candidates(base, n)| == n - 2
    ensures forall s :: s in Candidates(base, n) ==> exists k :: 2 <= k < n && s == base + Numeral(k)
  {
    if n > 2 {
      CandidatesDistinct(base, n - 1);
      var c := base + Numeral(n - 1);
      var earlier := Candidates(base, n - 1);
      forall s | s in earlier ensures s != c {
        var k :| 2 <= k < n - 1 && s == base + Numeral(k);
        if s == c {
          assert Numeral(k) == s[|base|..] && Numeral(n - 1) == c[|base|..];
          NumeralInjective(k, n - 1);
        }
      }
      forall s | s in Candidates(base, n) ensures exists k :: 2 <= k < n && s == base + Numeral(k) {
        if s == c { assert 2 <= n - 1 < n; } else { var k :| 2 <= k < n - 1 && s == base + Numeral(k); }
      }
    }
  }

  /**
   A dated selector, with a counter when it is taken. The search ends on every finite set of taken
   selectors: the candidates are all different.
  */
  method DatedSelector(month: string, algorithm: Algorithm, taken: set<string>) returns (selector: string)
    ensures selector !in taken
    ensures SelectorFor(month, algorithm) <= selector
    ensures SelectorFor(month, algorithm) !in taken ==> selector == SelectorFor(month, algorithm)
  {
    var base := SelectorFor(month, algorithm);
    if base !in taken {
      return base;
    }
    var n := 2;
    while true
      invariant n >= 2 && Candidates(base, n) <= taken
      decreases |taken| + 2 - n
    {
      var candidate := base + Numeral(n);
      CandidatesDistinct(base, n);
      SubsetSize(Candidates(base, n), taken);
      if candidate !in taken {
        return candidate;
      }
      CandidatesDistinct(base, n + 1);
      SubsetSize(Candidates(base, n + 1), taken);
      n := n + 1;
    }
  }

  // --- steps under the lock ---------------------------------------------------------------------

  /** `unused`: the selector datedSelector picks for the step, used only if the step creates a key. */
  datatype Step =
    | Ensure(algorithm: Algorithm, unused: string, now: int)
    | CreatePending(algorithm: Algorithm, unused: string, now: int)
    | Switch(id: KeyId, now: int)
    | Retire(id: KeyId, now: int)

  /** `at`: the clock reading of the last step. */
  datatype Domain = Domain(keys: Keys, nextId: KeyId, at: int)

  predicate Signs(k: Key, algorithm: Algorithm, now: int) {
    k.algorithm == algorithm && k.state == Active && k.retiredAt.None? && k.activeFrom <= now
  }

  function Insert(d: Domain, k: Key): (r: Domain) {
    d.(keys := d.keys[d.nextId := k], nextId := d.nextId + 1)
  }

  function EnsureTx(d: Domain, algorithm: Algorithm, unused: string, now: int): (r: Domain) {
    if exists k :: k in d.keys && Signs(d.keys[k], algorithm, now) then d
    else Insert(d, Key(algorithm, unused, Active, now, None, None))
  }

  function CreatePendingTx(d: Domain, algorithm: Algorithm, unused: string, now: int): (r: Domain) {
    if exists k :: k in d.keys && d.keys[k].algorithm == algorithm && d.keys[k].state == Pending then d
    else Insert(d, Key(algorithm, unused, Pending, now, None, None))
  }

  function SwitchedKey(k: Key, isNew: bool, algorithm: Algorithm, now: int): (r: Key) {
    if isNew then k.(state := Active, activeFrom := now)
    else if k.algorithm == algorithm && k.state == Active then k.(state := Retiring, retireAfter := Some(now + OVERLAP))
    else k
  }

  function SwitchTx(d: Domain, id: KeyId, now: int): (r: Domain) {
    if id in d.keys && d.keys[id].state == Pending
    then d.(keys := map k | k in d.keys :: SwitchedKey(d.keys[k], k == id, d.keys[id].algorithm, now))
    else d
  }

  function RetireTx(d: Domain, id: KeyId, now: int): (r: Domain) {
    if id in d.keys && d.keys[id].state == Retiring && d.keys[id].retireAfter.Some?
      && d.keys[id].retireAfter.value <= now
    then d.(keys := d.keys[id := d.keys[id].(state := Retired, retiredAt := Some(now))])
    else d
  }

  function Apply(d: Domain, s: Step): (r: Domain) {
    var d' :=
      match s
      case Ensure(algorithm, unused, now) => EnsureTx(d, algorithm, unused, now)
      case CreatePending(algorithm, unused, now) => CreatePendingTx(d, algorithm, unused, now)
      case Switch(id, now) => SwitchTx(d, id, now)
      case Retire(id, now) => RetireTx(d, id, now);
    d'.(at := s.now)
  }

  function Run(d: Domain, ss: seq<Step>): (r: Domain) {
    if ss == [] then d else Apply(Run(d, ss[..|ss| - 1]), ss[|ss| - 1])
  }

  /** The clock does not go back in lock order, and a new selector is one nobody has. */
  ghost predicate Fair(d: Domain, s: Step) {
    && d.at <= s.now
    && (s.Ensure? || s.CreatePending? ==> s.unused !in Selectors(d.keys))
  }

  ghost predicate FairRun(d: Domain, ss: seq<Step>) {
    ss != [] ==> FairRun(d, ss[..|ss| - 1]) && Fair(Run(d, ss[..|ss| - 1]), ss[|ss| - 1])
  }

  // --- what every fair run keeps ----------------------------------------------------------------

  ghost predicate KeyFits(d: Domain, k: KeyId)
    requires k in d.keys
  {
    var key := d.keys[k];
    && k < d.nextId
    && (key.state == Active ==> key.activeFrom <= d.at)
    && (key.retiredAt.Some? <==> key.state == Retired)
    && (key.retireAfter.Some? <==> key.state == Retiring || key.state == Retired)
    && (key.state == Retired ==> key.retireAfter.value <= key.retiredAt.value <= d.at)
  }

  ghost predicate Invariant(d: Domain) {
    && (forall k :: k in d.keys ==> KeyFits(d, k))
    && (forall a, b :: a in d.keys && b in d.keys && a != b ==> Compatible(d.keys[a], d.keys[b]))
  }

  /** Two keys of a domain: different selectors, and not both pending or both active for one algorithm. */
  predicate Compatible(a: Key, b: Key) {
    && a.selector != b.selector
    && (a.algorithm == b.algorithm && a.state == b.state ==> a.state == Retiring || a.state == Retired)
  }

  lemma SelectorTaken(keys: Keys, k: KeyId)
    requires k in keys
    ensures keys[k].selector in Selectors(keys)
  {
  }

  lemma InsertKeeps(d: Domain, key: Key, now: int)
    requires Invariant(d) && d.at <= now && key.selector !in Selectors(d.keys)
    requires (key.state == Active || key.state == Pending) && key.activeFrom == now && key.retireAfter.None?
             && key.retiredAt.None?
    requires forall k :: k in d.keys ==> d.keys[k].algorithm != key.algorithm || d.keys[k].state != key.state
    ensures Invariant(Insert(d, key).(at := now))
  {
    var r := Insert(d, key).(at := now);
    forall k | k in r.keys ensures KeyFits(r, k) {
      if k in d.keys { assert KeyFits(d, k); }
    }
    forall k | k in d.keys ensures k != d.nextId && Compatible(d.keys[k], key) && Compatible(key, d.keys[k]) {
      assert KeyFits(d, k);
      SelectorTaken(d.keys, k);
    }
  }

  lemma SwitchKeeps(d: Domain, id: KeyId, now: int)
    requires Invariant(d) && d.at <= now && id in d.keys && d.keys[id].state == Pending
    ensures Invariant(SwitchTx(d, id, now).(at := now))
  {
    var r := SwitchTx(d, id, now).(at := now);
    forall k | k in r.keys ensures KeyFits(r, k) { assert KeyFits(d, k); }
    forall a, b | a in r.keys && b in r.keys && a != b ensures Compatible(r.keys[a], r.keys[b]) {
      assert Compatible(d.keys[a], d.keys[b]);
      if a != id { assert Compatible(d.keys[a], d.keys[id]); }
      if b != id { assert Compatible(d.keys[b], d.keys[id]); }
    }
  }

  lemma RetireKeeps(d: Domain, id: KeyId, now: int)
    requires Invariant(d) && d.at <= now
    ensures Invariant(RetireTx(d, id, now).(at := now))
  {
    var r := RetireTx(d, id, now).(at := now);
    forall k | k in r.keys ensures KeyFits(r, k) { assert KeyFits(d, k); }
    forall a, b | a in r.keys && b in r.keys && a != b ensures Compatible(r.keys[a], r.keys[b]) {
      assert Compatible(d.keys[a], d.keys[b]);
    }
  }

  lemma IdleKeeps(d: Domain, now: int)
    requires Invariant(d) && d.at <= now
    ensures Invariant(d.(at := now))
  {
    forall k | k in d.keys ensures KeyFits(d.(at := now), k) { assert KeyFits(d, k); }
  }

  lemma ApplyKeeps(d: Domain, s: Step)
    requires Invariant(d) && Fair(d, s)
    ensures Invariant(Apply(d, s))
  {
    IdleKeeps(d, s.now);
    match s
    case Ensure(algorithm, unused, now) =>
      if EnsureTx(d, algorithm, unused, now) != d {
        forall k | k in d.keys ensures d.keys[k].algorithm != algorithm || d.keys[k].state != Active {
          assert KeyFits(d, k) && !Signs(d.keys[k], algorithm, now);
        }
        InsertKeeps(d, Key(algorithm, unused, Active, now, None, None), now);
      }
    case CreatePending(algorithm, unused, now) =>
      if CreatePendingTx(d, algorithm, unused, now) != d {
        InsertKeeps(d, Key(algorithm, unused, Pending, now, None, None), now);
      }
    case Switch(id, now) => if id in d.keys && d.keys[id].state == Pending { SwitchKeeps(d, id, now); }
    case Retire(id, now) => RetireKeeps(d, id, now);
  }

  /**
   Over every fair interleaving of ensure and rotation steps: at most one pending and one active key
   per algorithm, and no selector used twice.
  */
  lemma {:induction false} RunKeeps(d: Domain, ss: seq<Step>)
    requires Invariant(d) && FairRun(d, ss)
    ensures Invariant(Run(d, ss)) && d.at <= Run(d, ss).at
  {
    if ss != [] {
      RunKeeps(d, ss[..|ss| - 1]);
      ApplyKeeps(Run(d, ss[..|ss| - 1]), ss[|ss| - 1]);
    }
  }

  function Rank(s: KeyState): (n: nat) {
    match s case Pending => 0 case Active => 1 case Retiring => 2 case Retired => 3
  }

  ghost predicate HasActive(d: Domain, algorithm: Algorithm) {
    exists k :: k in d.keys && d.keys[k].algorithm == algorithm && d.keys[k].state == Active
  }

  lemma ApplyForward(d: Domain, s: Step, k: KeyId)
    requires Invariant(d) && k in d.keys
    ensures var r := Apply(d, s);
      && k in r.keys && Rank(d.keys[k].state) <= Rank(r.keys[k].state)
      && r.keys[k].selector == d.keys[k].selector && r.keys[k].algorithm == d.keys[k].algorithm
      && (d.keys[k].retireAfter.Some? ==> r.keys[k].retireAfter == d.keys[k].retireAfter)
      && (d.keys[k].state == Active && r.keys[k].state != Active ==>
            r.keys[k].state == Retiring && r.keys[k].retireAfter == Some(s.now + OVERLAP))
  {
    assert KeyFits(d, k);
  }

  lemma ApplyKeepsActive(d: Domain, s: Step, algorithm: Algorithm)
    requires Invariant(d) && HasActive(d, algorithm)
    ensures HasActive(Apply(d, s), algorithm)
  {
    var k :| k in d.keys && d.keys[k].algorithm == algorithm && d.keys[k].state == Active;
    assert KeyFits(d, k);
    var r := Apply(d, s);
    if s.Switch? && s.id in d.keys && d.keys[s.id].state == Pending && d.keys[s.id].algorithm == algorithm {
      assert r.keys[s.id].state == Active;
    } else {
      assert k in r.keys && r.keys[k].state == Active;
    }
  }

  /** States only move forward, a key keeps its selector, and an active key is never left without a successor. */
  lemma {:induction false} RunForward(d: Domain, ss: seq<Step>, k: KeyId, algorithm: Algorithm)
    requires Invariant(d) && FairRun(d, ss) && k in d.keys
    ensures var r := Run(d, ss);
      && k in r.keys && Rank(d.keys[k].state) <= Rank(r.keys[k].state) && r.keys[k].selector == d.keys[k].selector
      && (HasActive(d, algorithm) ==> HasActive(r, algorithm))
  {
    if ss != [] {
      var init := ss[..|ss| - 1];
      RunForward(d, init, k, algorithm);
      RunKeeps(d, init);
      var mid := Run(d, init);
      ApplyForward(mid, ss[|ss| - 1], k);
      if HasActive(mid, algorithm) { ApplyKeepsActive(mid, ss[|ss| - 1], algorithm); }
    }
  }

  lemma {:induction false} RunDelaysRetirement(d: Domain, ss: seq<Step>, k: KeyId)
    requires Invariant(d) && FairRun(d, ss) && k in d.keys && d.keys[k].state == Active
    ensures k in Run(d, ss).keys && d.at <= Run(d, ss).at
    ensures var key := Run(d, ss).keys[k];
      key.state == Active || (key.retireAfter.Some? && key.retireAfter.value >= d.at + OVERLAP)
  {
    if ss != [] {
      var init := ss[..|ss| - 1];
      RunDelaysRetirement(d, init, k);
      RunKeeps(d, init);
      ApplyForward(Run(d, init), ss[|ss| - 1], k);
    }
  }

  /** No key is retired within 7 days of a moment at which it was still signing. */
  lemma RetiredNoSooner(d: Domain, ss: seq<Step>, k: KeyId)
    requires Invariant(d) && FairRun(d, ss) && k in d.keys && d.keys[k].state == Active
    ensures k in Run(d, ss).keys
    ensures var key := Run(d, ss).keys[k];
      key.state == Retired ==>
        key.retiredAt.Some? && key.retiredAt.value >= d.at + OVERLAP
        && Run(d, ss).at >= d.at + OVERLAP
  {
    RunDelaysRetirement(d, ss, k);
    RunKeeps(d, ss);
    assert KeyFits(Run(d, ss), k);
  }

  ghost predicate Retires(ss: seq<Step>, k: KeyId, since: int) {
    exists i :: 0 <= i < |ss| && ss[i].Retire? && ss[i].id == k && ss[i].now >= since
  }

  lemma RetiresAppend(ss: seq<Step>, s: Step, k: KeyId, since: int)
    ensures Retires(ss + [s], k, since) <==> Retires(ss, k, since) || (s.Retire? && s.id == k && s.now >= since)
  {
    assert (ss + [s])[|ss|] == s;
    if Retires(ss, k, since) {
      var i :| 0 <= i < |ss| && ss[i].Retire? && ss[i].id == k && ss[i].now >= since;
      assert (ss + [s])[i] == ss[i];
    }
  }

  lemma {:induction false} RetiringUntil(d: Domain, ss: seq<Step>, k: KeyId, since: int)
    requires k in d.keys && k < d.nextId && d.keys[k].state == Retiring && d.keys[k].retireAfter == Some(since)
    ensures var r := Run(d, ss);
      && k in r.keys && k < r.nextId
      && (if Retires(ss, k, since) then r.keys[k].state == Retired else r.keys[k] == d.keys[k])
    decreases |ss|
  {
    if ss != [] {
      var init, s := ss[..|ss| - 1], ss[|ss| - 1];
      assert ss == init + [s];
      RetiringUntil(d, init, k, since);
      RetiresAppend(init, s, k, since);
    }
  }

  /** A key that was signing when another took over is retired by exactly the passes 7 days after that or later. */
  lemma RetiredExactly(d: Domain, id: KeyId, now: int, ss: seq<Step>, k: KeyId)
    requires Invariant(d) && id in d.keys && d.keys[id].state == Pending
    requires k in d.keys && d.keys[k].state == Active && d.keys[k].algorithm == d.keys[id].algorithm
    ensures var r := Run(Apply(d, Switch(id, now)), ss);
      k in r.keys && (r.keys[k].state == Retired <==> Retires(ss, k, now + 604_800_000))
  {
    RetiringUntil(Apply(d, Switch(id, now)), ss, k, now + 604_800_000);
  }

  // --- when the clock goes back -----------------------------------------------------------------

  /**
   An ensure that carries an earlier reading than the active key's does not see that key and makes a
   second active one. On a domain that satisfies the invariant it does so exactly when every active
   key of the algorithm is younger than the reading.
  */
  lemma EnsureExact(d: Domain, algorithm: Algorithm, unused: string, now: int)
    requires Invariant(d) && unused !in Selectors(d.keys)
    ensures (exists a, b :: a != b && BothActive(EnsureTx(d, algorithm, unused, now), algorithm, a, b)) <==>
      && HasActive(d, algorithm)
      && forall k :: k in d.keys && d.keys[k].algorithm == algorithm && d.keys[k].state == Active ==>
           d.keys[k].activeFrom > now
  {
    var r := EnsureTx(d, algorithm, unused, now);
    if r == d {
      forall a, b | BothActive(d, algorithm, a, b) ensures a == b {
        assert a != b ==> Compatible(d.keys[a], d.keys[b]);
      }
      var k :| k in d.keys && Signs(d.keys[k], algorithm, now);
    } else {
      forall k | k in d.keys && d.keys[k].algorithm == algorithm && d.keys[k].state == Active
        ensures d.keys[k].activeFrom > now
      {
        assert KeyFits(d, k) && !Signs(d.keys[k], algorithm, now);
      }
      if HasActive(d, algorithm) {
        var k :| k in d.keys && d.keys[k].algorithm == algorithm && d.keys[k].state == Active;
        assert KeyFits(d, k);
        assert BothActive(r, algorithm, k, d.nextId);
      } else {
        assert forall a, b :: BothActive(r, algorithm, a, b) ==> a == d.nextId == b;
      }
    }
  }

  ghost predicate BothActive(d: Domain, algorithm: Algorithm, a: KeyId, b: KeyId) {
    && a in d.keys && b in d.keys
    && d.keys[a].algorithm == d.keys[b].algorithm == algorithm
    && d.keys[a].state == d.keys[b].state == Active
  }

  /** A key that has signed since a moment, and a reading from before it: a second active key. */
  lemma EarlierReadingAddsKey(algorithm: Algorithm, selector: string, unused: string, since: int, now: int)
    requires now < since && unused != selector
    ensures var d := Domain(map[0 := Key(algorithm, selector, Active, since, None, None)], 1, since);
      Invariant(d) && BothActive(EnsureTx(d, algorithm, unused, now), algorithm, 0, 1)
  {
    var d := Domain(map[0 := Key(algorithm, selector, Active, since, None, None)], 1, since);
    assert !Signs(d.keys[0], algorithm, now);
  }

  // --- one pass, in place -----------------------------------------------------------------------

  lemma RunOneMore(d: Domain, ss: seq<Step>, s: Step)
    ensures Run(d, ss + [s]) == Apply(Run(d, ss), s)
    ensures FairRun(d, ss) && Fair(Run(d, ss), s) ==> FairRun(d, ss + [s])
  {
    assert (ss + [s])[..|ss|] == ss;
  }

  // --- what one pass does -----------------------------------------------------------------------

  ghost predicate HasPending(d: Domain, algorithm: Algorithm) {
    exists k :: k in d.keys && d.keys[k].algorithm == algorithm && d.keys[k].state == Pending
  }

  /** Superseded, and its overlap is over. */
  predicate PastOverlap(k: Key, now: int) {
    k.state == Retiring && k.retireAfter.Some? && k.retireAfter.value <= now
  }

  /** What a pass makes of a key that was there: `switching` when a pending key is to sign from now on. */
  function StateAfter(k: Key, algorithm: Algorithm, now: int, switching: bool): (s: KeyState) {
    if k.algorithm != algorithm then k.state
    else if PastOverlap(k, now) then Retired
    else if switching && k.state == Pending then Active
    else if switching && k.state == Active then Retiring
    else k.state
  }

  /**
   A pass over an algorithm retires exactly the keys past their overlap; it switches to the pending key if and only
   if there is one and its record is visible; and it creates a pending key if and only if there is none, there
   is an active one, and that is due. No other key changes.
  */
  ghost predicate PassOutcome(was: Domain, r: Domain, algorithm: Algorithm, now: int, visible: bool, due: bool) {
    var creates := !HasPending(was, algorithm) && due && HasActive(was, algorithm);
    && (forall k :: k in was.keys ==>
          && k in r.keys && r.keys[k].algorithm == was.keys[k].algorithm && r.keys[k].selector == was.keys[k].selector
          && r.keys[k].state == StateAfter(was.keys[k], algorithm, now, visible && HasPending(was, algorithm)))
    && r.keys.Keys == (if creates then was.keys.Keys + {was.nextId} else was.keys.Keys)
    && (creates ==> r.keys[was.nextId].algorithm == algorithm && r.keys[was.nextId].state == Pending)
  }

  function AfterRetire(k: Key, now: int): (r: Key) {
    if PastOverlap(k, now) then k.(state := Retired, retiredAt := Some(now)) else k
  }

  ghost predicate RetiredUpTo(was: Domain, r: Domain, ids: seq<KeyId>, now: int) {
    && r.keys.Keys == was.keys.Keys && r.nextId == was.nextId
    && forall k :: k in was.keys ==> r.keys[k] == if k in ids then AfterRetire(was.keys[k], now) else was.keys[k]
  }

  lemma RetireNext(was: Domain, r: Domain, ids: seq<KeyId>, i: nat, now: int)
    requires i < |ids| && RetiredUpTo(was, r, ids[..i], now)
    ensures RetiredUpTo(was, Apply(r, Retire(ids[i], now)), ids[..i + 1], now)
  {
    assert ids[..i + 1] == ids[..i] + [ids[i]];
  }

  lemma AllRetired(was: Domain, r: Domain, algorithm: Algorithm, ids: seq<KeyId>, now: int)
    requires RetiredUpTo(was, r, ids, now)
    requires forall k :: k in ids <==> k in was.keys && was.keys[k].algorithm == algorithm
    ensures OnlyRetired(was, r, algorithm, now)
  {
  }

  /** The keys of the algorithm past their overlap are retired, and no other key has changed. */
  ghost predicate OnlyRetired(was: Domain, r: Domain, algorithm: Algorithm, now: int) {
    && r.keys.Keys == was.keys.Keys && r.nextId == was.nextId
    && forall k :: k in was.keys ==>
         r.keys[k] == if was.keys[k].algorithm == algorithm then AfterRetire(was.keys[k], now) else was.keys[k]
  }

  lemma SamePending(was: Domain, r: Domain, algorithm: Algorithm, now: int)
    requires OnlyRetired(was, r, algorithm, now)
    ensures HasPending(r, algorithm) <==> HasPending(was, algorithm)
    ensures HasActive(r, algorithm) <==> HasActive(was, algorithm)
  {
    if HasPending(was, algorithm) {
      var k :| k in was.keys && was.keys[k].algorithm == algorithm && was.keys[k].state == Pending;
      assert r.keys[k].state == Pending;
    }
    if HasActive(was, algorithm) {
      var k :| k in was.keys && was.keys[k].algorithm == algorithm && was.keys[k].state == Active;
      assert r.keys[k].state == Active;
    }
  }

  /** No algorithm has two pending keys. */
  ghost predicate OnePending(d: Domain) {
    forall a, b :: a in d.keys && b in d.keys && SamePendingKind(d.keys[a], d.keys[b]) ==> a == b
  }

  predicate SamePendingKind(a: Key, b: Key) {
    a.algorithm == b.algorithm && a.state == b.state == Pending
  }

  lemma PendingUnique(d: Domain)
    requires Invariant(d)
    ensures OnePending(d) && d.nextId !in d.keys
  {
    forall a, b | a in d.keys && b in d.keys && SamePendingKind(d.keys[a], d.keys[b]) ensures a == b {
      assert a != b ==> Compatible(d.keys[a], d.keys[b]);
    }
    assert d.nextId in d.keys ==> KeyFits(d, d.nextId);
  }

  lemma SwitchOutcome(was: Domain, mid: Domain, id: KeyId, algorithm: Algorithm, now: int, due: bool)
    requires OnlyRetired(was, mid, algorithm, now)
    requires id in mid.keys && mid.keys[id].algorithm == algorithm && mid.keys[id].state == Pending
    requires OnePending(was)
    ensures PassOutcome(was, Apply(mid, Switch(id, now)), algorithm, now, true, due)
  {
    assert was.keys[id].state == Pending;
    assert forall k :: k in was.keys && SamePendingKind(was.keys[k], was.keys[id]) ==> k == id;
    assert HasPending(was, algorithm);
  }

  lemma CreateOutcome(was: Domain, mid: Domain, step: Step, algorithm: Algorithm, now: int, visible: bool)
    requires OnlyRetired(was, mid, algorithm, now) && !HasPending(was, algorithm) && was.nextId !in was.keys
    requires exists k :: k in mid.keys && mid.keys[k].algorithm == algorithm && mid.keys[k].state == Active
    requires step.CreatePending? && step.algorithm == algorithm
    ensures PassOutcome(was, Apply(mid, step), algorithm, now, visible, true)
  {
    SamePending(was, mid, algorithm, now);
    assert HasActive(mid, algorithm);
  }

  lemma NothingDue(was: Domain, mid: Domain, algorithm: Algorithm, now: int, visible: bool, due: bool)
    requires OnlyRetired(was, mid, algorithm, now) && !HasPending(was, algorithm)
    requires due ==> !exists k :: k in mid.keys && mid.keys[k].algorithm == algorithm && mid.keys[k].state == Active
    ensures PassOutcome(was, mid, algorithm, now, visible, due)
  {
    SamePending(was, mid, algorithm, now);
  }

  lemma NotVisible(was: Domain, mid: Domain, algorithm: Algorithm, now: int, due: bool)
    requires OnlyRetired(was, mid, algorithm, now) && HasPending(was, algorithm)
    ensures PassOutcome(was, mid, algorithm, now, false, due)
  {
  }

  class KeyStore {
    var keys: Keys
    var nextId: KeyId
    ghost var at: int

    ghost function Value(): (d: Domain)
      reads this
    {
      Domain(keys, nextId, at)
    }

    /** A step with the guard already decided: what the transaction writes. */
    method Add(key: Key, now: int)
      modifies this
      ensures Value() == Insert(old(Value()), key).(at := now)
    {
      keys := keys[nextId := key];
      nextId := nextId + 1;
      at := now;
    }

    /** ensureDkimKeys for one algorithm. */
    method EnsureKey(month: string, algorithm: Algorithm, now: int) returns (ghost step: Step)
      requires at <= now
      modifies this
      ensures Fair(old(Value()), step) && Value() == Apply(old(Value()), step)
      ensures Invariant(old(Value())) ==> HasActive(Value(), algorithm)
    {
      ghost var d := Value();
      var selector := DatedSelector(month, algorithm, Selectors(keys));
      step := Ensure(algorithm, selector, now);
      if exists k :: k in keys && Signs(keys[k], algorithm, now) {
        at := now;
      } else {
        Add(Key(algorithm, selector, Active, now, None, None), now);
        assert keys[d.nextId].state == Active;
      }
    }

    method RetireKey(id: KeyId, now: int)
      modifies this
      ensures Value() == Apply(old(Value()), Retire(id, now))
    {
      if id in keys && keys[id].state == Retiring && keys[id].retireAfter.Some? && keys[id].retireAfter.value <= now {
        keys := keys[id := keys[id].(state := Retired, retiredAt := Some(now))];
      }
      at := now;
    }

    method SwitchTo(id: KeyId, now: int)
      modifies this
      ensures Value() == Apply(old(Value()), Switch(id, now))
    {
      if id in keys && keys[id].state == Pending {
        keys := map k | k in keys :: SwitchedKey(keys[k], k == id, keys[id].algorithm, now);
      }
      at := now;
    }

    method CreateSuccessor(month: string, algorithm: Algorithm, now: int) returns (ghost step: Step)
      requires at <= now
      modifies this
      ensures step.CreatePending? && step.algorithm == algorithm && step.now == now
      ensures Fair(old(Value()), step) && Value() == Apply(old(Value()), step)
    {
      var selector := DatedSelector(month, algorithm, Selectors(keys));
      step := CreatePending(algorithm, selector, now);
      if exists k :: k in keys && keys[k].algorithm == algorithm && keys[k].state == Pending {
        at := now;
      } else {
        Add(Key(algorithm, selector, Pending, now, None, None), now);
      }
    }

    /**
     One rotation pass over an algorithm: retire what is past its overlap, then switch to a pending key
     whose record is visible, or else create the successor of an active key that is due.
    */
    method Rotate(month: string, algorithm: Algorithm, now: int, visible: bool, due: bool)
            returns (ghost steps: seq<Step>)
      requires at <= now && Invariant(Value())
      modifies this
      ensures FairRun(old(Value()), steps) && Value() == Run(old(Value()), steps)
      ensures Invariant(Value())
      ensures PassOutcome(old(Value()), Value(), algorithm, now, visible, due)
    {
      ghost var d := Value();
      PendingUnique(d);
      hide *;
      steps := RetireKeys(algorithm, now);
      ghost var mid := Value();
      SamePending(d, mid, algorithm, now);
      var pending := PendingKeys(keys, algorithm);
      PendingKeysIs(mid, algorithm);
      if pending != {} {
        if visible {
          var id :| id in pending;
          SwitchOutcome(d, mid, id, algorithm, now, due);
          RunOneMore(d, steps, Switch(id, now));
          SwitchIsFair(mid, id, now);
          steps := steps + [Switch(id, now)];
          SwitchTo(id, now);
        } else {
          NotVisible(d, mid, algorithm, now, due);
        }
      } else if due && exists k :: k in keys && keys[k].algorithm == algorithm && keys[k].state == Active {
        ghost var step := CreateSuccessor(month, algorithm, now);
        CreateOutcome(d, mid, step, algorithm, now, visible);
        RunOneMore(d, steps, step);
        steps := steps + [step];
      } else {
        NothingDue(d, mid, algorithm, now, visible, due);
      }
      RunKeeps(d, steps);
    }

    /** The first part of a pass: every superseded key whose overlap is over is retired. */
    method RetireKeys(algorithm: Algorithm, now: int) returns (ghost steps: seq<Step>)
      requires at <= now
      modifies this
      ensures FairRun(old(Value()), steps) && Value() == Run(old(Value()), steps) && at <= now
      ensures OnlyRetired(old(Value()), Value(), algorithm, now)
    {
      ghost var d := Value();
      steps := [];
      assert FairRun(d, steps) && Value() == Run(d, steps);
      assert RetiredUpTo(d, Value(), [], now);
      hide Apply, Run, FairRun, RetiredUpTo, OnlyRetired;
      var ids := Sorted(set k | k in keys && keys[k].algorithm == algorithm);
      assert ids[..0] == [];
      for i := 0 to |ids|
        invariant FairRun(d, steps) && Value() == Run(d, steps) && at <= now
        invariant RetiredUpTo(d, Value(), ids[..i], now)
      {
        ghost var step := Retire(ids[i], now);
        RetireNext(d, Value(), ids, i, now);
        RunOneMore(d, steps, step);
        ApplySetsClock(Value(), step);
        steps := steps + [step];
        RetireKey(ids[i], now);
      }
      assert ids[..|ids|] == ids;
      AllRetired(d, Value(), algorithm, ids, now);
    }
  }

  function PendingKeys(keys: Keys, algorithm: Algorithm): (r: set<KeyId>) {
    set k | k in keys && keys[k].algorithm == algorithm && keys[k].state == Pending
  }

  lemma PendingKeysIs(d: Domain, algorithm: Algorithm)
    ensures HasPending(d, algorithm) <==> PendingKeys(d.keys, algorithm) != {}
    ensures forall k :: k in PendingKeys(d.keys, algorithm) ==>
              k in d.keys && d.keys[k].algorithm == algorithm && d.keys[k].state == Pending
  {
    if HasPending(d, algorithm) {
      var k :| k in d.keys && d.keys[k].algorithm == algorithm && d.keys[k].state == Pending;
      assert k in PendingKeys(d.keys, algorithm);
    }
  }

  lemma SwitchIsFair(d: Domain, id: KeyId, now: int)
    requires d.at <= now
    ensures Fair(d, Switch(id, now))
  {
  }

  lemma ApplySetsClock(d: Domain, s: Step)
    ensures Apply(d, s).at == s.now
  {
  }
}
