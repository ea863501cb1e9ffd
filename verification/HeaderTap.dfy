/**
 The header block captured from an inbound message on its way to the spool (apps/smtp-in/src/spool.ts).
 Chunks arrive in any size; the tap looks for the empty line and gives up past a limit.
*/
module HeaderCapture {
  import opened Sets
  import opened Chunks

  /** The header block up to the CRLF that ends its last field, or None past the limit. */
  datatype Captured = Captured(block: Option<string>, headerOnly: bool)

  datatype Tap = Tap(acc: string, done: Option<Captured>)

  const NEW_TAP: Tap := Tap("", None)

  predicate SeparatorAt(s: string, i: nat) {
    i + 4 <= |s| && s[i] == '\r' && s[i + 1] == '\n' && s[i + 2] == '\r' && s[i + 3] == '\n'
  }

  /** The first separator at or after `from`. */
  function IndexOf(s: string, from: nat): (r: Option<nat>)
    ensures r.Some? ==> from <= r.value && SeparatorAt(s, r.value) && forall i :: from <= i < r.value ==>
            !SeparatorAt(s, i)
    ensures r.None? ==> forall i :: from <= i ==> !SeparatorAt(s, i)
    decreases |s| - from
  {
    if from + 4 > |s| then None
    else if SeparatorAt(s, from) then Some(from)
    else IndexOf(s, from + 1)
  }

  function Pushed(tap: Tap, chunk: string, maxBytes: nat): (r: Tap) {
    if tap.done.Some? then tap
    else
      var joined := tap.acc + chunk;
      match IndexOf(joined, if |tap.acc| < 3 then 0 else |tap.acc| - 3)
      case Some(at) => Tap("", Some(Captured(if at + 2 > maxBytes then None else Some(joined[..at + 2]), false)))
      case None => if |joined| > maxBytes then Tap("", Some(Captured(None, false))) else Tap(joined, None)
  }

  function Finished(tap: Tap): (c: Captured) {
    if tap.done.Some? then tap.done.value else Captured(Some(tap.acc), true)
  }

  function PushAll(tap: Tap, chunks: seq<string>, maxBytes: nat): (r: Tap)
    decreases |chunks|
  {
    if chunks == [] then tap else PushAll(Pushed(tap, chunks[0], maxBytes), chunks[1..], maxBytes)
  }

  /** The header block of a whole message. */
  function Capture(msg: string, maxBytes: nat): (c: Captured) {
    match IndexOf(msg, 0)
    case Some(at) => Captured(if at + 2 > maxBytes then None else Some(msg[..at + 2]), false)
    case None => if |msg| > maxBytes then Captured(None, false) else Captured(Some(msg), true)
  }

  /** Where the result could hang on the chunks: a block that ends exactly at the limit. */
  predicate AtLimit(msg: string, maxBytes: nat) {
    IndexOf(msg, 0).Some? && IndexOf(msg, 0).value + 2 == maxBytes
  }

  /** The octets at i are an empty line after the end of another. */
  ghost predicate EmptyLineAfter(s: string, i: nat) { i + 4 <= |s| && s[i..i + 4] == "\r\n\r\n" }

  /**
   What a header block is: all up to and with the end of the line before the first empty one, if it is within the
   limit; and a message without an empty line is all header.
  */
  lemma CaptureIs(block: string, body: string, maxBytes: nat)
    requires |block| >= 2 && block[|block| - 2..] == "\r\n"
    requires forall i :: 0 <= i < |block| - 2 ==> !EmptyLineAfter(block + "\r\n" + body, i)
    ensures Capture(block + "\r\n" + body, maxBytes)
            == Captured(if |block| <= maxBytes then Some(block) else None, false)
  {
    var msg, at := block + "\r\n" + body, |block| - 2;
    assert msg[at] == block[at..][0] && msg[at + 1] == block[at..][1];
    assert SeparatorAt(msg, at);
    forall i | 0 <= i < at ensures !SeparatorAt(msg, i) {
      if SeparatorAt(msg, i) {
        assert msg[i..i + 4] == "\r\n\r\n";
        assert EmptyLineAfter(msg, i);
      }
    }
    FirstIs(msg, at);
    assert msg[..|block|] == block;
  }

  lemma CaptureWithoutBody(msg: string, maxBytes: nat)
    requires forall i :: 0 <= i < |msg| ==> !EmptyLineAfter(msg, i)
    ensures Capture(msg, maxBytes)
            == if |msg| <= maxBytes then Captured(Some(msg), true) else Captured(None, false)
  {
    var r := IndexOf(msg, 0);
    if r.Some? {
      assert msg[r.value..r.value + 4] == "\r\n\r\n";
      assert EmptyLineAfter(msg, r.value);
    }
  }

  // --- any chunking -----------------------------------------------------------------------------

  /** What the tap holds after the text x. */
  ghost predicate Holds(tap: Tap, x: string, maxBytes: nat) {
    match tap.done
    case None => tap.acc == x && IndexOf(x, 0).None? && |x| <= maxBytes
    case Some(c) => c == Capture(x, maxBytes) && (IndexOf(x, 0).Some? || |x| > maxBytes)
  }

  lemma SeparatorLater(x: string, y: string, i: nat)
    requires SeparatorAt(x + y, i)
    ensures i + 4 <= |x| ==> SeparatorAt(x, i)
  {
  }

  lemma FirstIs(s: string, at: nat)
    requires SeparatorAt(s, at) && forall i :: 0 <= i < at ==> !SeparatorAt(s, i)
    ensures IndexOf(s, 0) == Some(at)
  {
    var r := IndexOf(s, 0);
    assert r.Some? && r.value <= at;
  }

  /** Looking from three octets before the new chunk on misses no separator. */
  lemma SearchFromThere(x: string, y: string)
    requires IndexOf(x, 0).None?
    ensures IndexOf(x + y, if |x| < 3 then 0 else |x| - 3) == IndexOf(x + y, 0)
  {
    var from := if |x| < 3 then 0 else |x| - 3;
    forall i | 0 <= i < from ensures !SeparatorAt(x + y, i) {
      if SeparatorAt(x + y, i) { SeparatorLater(x, y, i); }
    }
    var r := IndexOf(x + y, from);
    if r.Some? { FirstIs(x + y, r.value); }
  }

  lemma FirstStays(x: string, y: string)
    requires IndexOf(x, 0).Some?
    ensures IndexOf(x + y, 0) == IndexOf(x, 0)
  {
    var at := IndexOf(x, 0).value;
    forall i | 0 <= i < at ensures !SeparatorAt(x + y, i) {
      if SeparatorAt(x + y, i) { SeparatorLater(x, y, i); }
    }
    FirstIs(x + y, at);
  }

  lemma PushHolds(tap: Tap, x: string, chunk: string, maxBytes: nat)
    requires Holds(tap, x, maxBytes) && !AtLimit(x + chunk, maxBytes)
    ensures Holds(Pushed(tap, chunk, maxBytes), x + chunk, maxBytes)
  {
    var all := x + chunk;
    if tap.done.None? {
      SearchFromThere(x, chunk);
    } else if IndexOf(x, 0).Some? {
      FirstStays(x, chunk);
      assert IndexOf(x, 0).value + 2 <= |x| ==> all[..IndexOf(x, 0).value + 2] == x[..IndexOf(x, 0).value + 2];
    } else if IndexOf(all, 0).Some? {
      SeparatorLater(x, chunk, IndexOf(all, 0).value);
    }
  }

  lemma LimitLater(x: string, y: string, maxBytes: nat)
    requires AtLimit(x, maxBytes)
    ensures AtLimit(x + y, maxBytes)
  {
    FirstStays(x, y);
  }

  lemma {:induction false} PushAllHolds(tap: Tap, x: string, chunks: seq<string>, maxBytes: nat)
    requires Holds(tap, x, maxBytes) && !AtLimit(x + Concat(chunks), maxBytes)
    ensures Holds(PushAll(tap, chunks, maxBytes), x + Concat(chunks), maxBytes)
    decreases |chunks|
  {
    hide Holds, AtLimit, Pushed;
    if chunks == [] {
      assert x + Concat(chunks) == x;
    } else {
      var next := x + chunks[0];
      assert next + Concat(chunks[1..]) == x + Concat(chunks);
      if AtLimit(next, maxBytes) { LimitLater(next, Concat(chunks[1..]), maxBytes); }
      PushHolds(tap, x, chunks[0], maxBytes);
      PushAllHolds(Pushed(tap, chunks[0], maxBytes), next, chunks[1..], maxBytes);
    }
  }

  lemma CapturedAs(chunks: seq<string>, maxBytes: nat)
    requires !AtLimit(Concat(chunks), maxBytes)
    ensures Finished(PushAll(NEW_TAP, chunks, maxBytes)) == Capture(Concat(chunks), maxBytes)
  {
    assert "" + Concat(chunks) == Concat(chunks);
    PushAllHolds(NEW_TAP, "", chunks, maxBytes);
  }

  /** Cut one octet before the end of the separator, a block at the limit is lost; in one piece it is kept. */
  lemma CutAtLimit(msg: string, maxBytes: nat)
    requires AtLimit(msg, maxBytes)
    ensures maxBytes + 1 <= |msg|
    ensures var chunks := [msg[..maxBytes + 1], msg[maxBytes + 1..]];
            Concat(chunks) == msg && Finished(PushAll(NEW_TAP, chunks, maxBytes)) != Capture(msg, maxBytes)
  {
    var x, y := msg[..maxBytes + 1], msg[maxBytes + 1..];
    var chunks, last := [x, y], [y];
    assert chunks[1..] == last && last[1..] == [];
    ConcatPair(x, y);
    assert x + y == msg;
    if IndexOf(x, 0).Some? { FirstStays(x, y); }
    assert "" + x == x;
    assert Pushed(NEW_TAP, x, maxBytes) == Tap("", Some(Captured(None, false)));
    assert PushAll(NEW_TAP, chunks, maxBytes) == PushAll(Pushed(NEW_TAP, x, maxBytes), last, maxBytes);
  }

  /** Every chunking of a message gives its header block, if and only if the block does not end exactly at the limit. */
  lemma CaptureExact(msg: string, maxBytes: nat)
    ensures (forall chunks :: Concat(chunks) == msg ==>
            Finished(PushAll(NEW_TAP, chunks, maxBytes)) == Capture(msg, maxBytes))
       <==> !AtLimit(msg, maxBytes)
  {
    hide Capture, AtLimit, PushAll, Finished;
    if AtLimit(msg, maxBytes) {
      CutAtLimit(msg, maxBytes);
    } else {
      forall chunks | Concat(chunks) == msg ensures Finished(PushAll(NEW_TAP, chunks, maxBytes))
        == Capture(msg, maxBytes) {
        CapturedAs(chunks, maxBytes);
      }
    }
  }

  class HeaderTap {
    var acc: string
    var accBytes: nat
    var done: Option<Captured>
    const maxBytes: nat

    ghost predicate Valid()
      reads this
    {
      done.None? ==> accBytes == |acc|
    }

    ghost function Value(): Tap
      reads this
    {
      Tap(acc, done)
    }

    constructor (maxBytes: nat)
      ensures Valid() && Value() == NEW_TAP && this.maxBytes == maxBytes
    {
      acc, accBytes, done := "", 0, None;
      this.maxBytes := maxBytes;
    }

    method Push(chunk: string)
      requires Valid()
      modifies this
      ensures Valid() && Value() == Pushed(old(Value()), chunk, maxBytes)
    {
      if done.Some? { return; }
      var searchFrom := if accBytes < 3 then 0 else accBytes - 3;
      accBytes := accBytes + |chunk|;
      acc := acc + chunk;
      var at := IndexOf(acc, searchFrom);
      if at.Some? {
        done := Some(Captured(if at.value + 2 > maxBytes then None else Some(acc[..at.value + 2]), false));
        acc := "";
        return;
      }
      if accBytes > maxBytes {
        done := Some(Captured(None, false));
        acc := "";
      }
    }

    method Finish() returns (c: Captured)
      requires Valid()
      modifies this
      ensures Valid() && c == Finished(old(Value())) && done == Some(c)
    {
      if done.Some? { return done.value; }
      var all := acc;
      acc := "";
      done := Some(Captured(Some(all), true));
      return done.value;
    }
  }
}
