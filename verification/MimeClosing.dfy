/**
 Where a part ends past its parent. The line break before a delimiter is taken from every part the
 delimiter closes, but a body that has just started has no line break to give.
*/
module MimeClosing {
  import opened Sets
  import opened MimeScan
  import opened MimeProofs

  /** The start of the delimiter line that closes part k, if the end of the message does not. */
  ghost function ClosingLine(c: Core, t: string, p: nat, k: Id, read: HeaderReader): (at: Option<nat>)
    requires StackNames(c) && p <= |t|
    decreases |t| - p
  {
    if p == |t| then None
    else
      var end := LineStop(t, p);
      var next := ProcessLine(c, LineOf(t, p, end, CapFor(c)), read);
      if IsOpen(c.stack, k) && !IsOpen(next.stack, k) then Some(p) else ClosingLine(next, t, end, k, read)
  }

  /** The part in place i below k ends past k exactly when its body starts at the line that closes k, and k's before. */
  ghost predicate EndExact(nodes: seq<Node>, k: Id, i: nat, closing: Option<nat>)
    requires k < |nodes| && i < |Below(nodes[k])|
  {
    var id := Below(nodes[k])[i];
    && id < |nodes|
    && (nodes[id].bodyEnd > nodes[k].bodyEnd <==>
        closing == Some(nodes[id].bodyStart) && nodes[k].bodyStart < nodes[id].bodyStart)
  }

  ghost predicate KidsExact(nodes: seq<Node>, k: Id, closing: Option<nat>)
    requires k < |nodes|
  {
    forall i :: 0 <= i < |Below(nodes[k])| ==> EndExact(nodes, k, i, closing)
  }

  // --- a closed part stays as it is -------------------------------------------------------------

  lemma {:induction false} CloseAboveKept(nodes: seq<Node>, stack: seq<Frame>, d: nat, at: nat, br: nat, x: Id,
          read: HeaderReader)
    requires (forall f :: f in stack ==> f.node < |nodes|) && x < |nodes| && !IsOpen(stack, x)
    ensures CloseAbove(nodes, stack, d, at, br, read)[x] == nodes[x]
    decreases |stack|
  {
    if |stack| > d + 1 {
      var f, rest := stack[|stack| - 1], stack[..|stack| - 1];
      assert f.node != x;
      CloseFrameKept(nodes, f, at, br, x, read);
      ClosedBelow(stack, x);
      CloseAboveKept(CloseFrame(nodes, f, at, br, read), rest, d, at, br, x, read);
    }
  }

  lemma ClosedBelow(stack: seq<Frame>, x: Id)
    requires |stack| > 0 && !IsOpen(stack, x)
    ensures !IsOpen(stack[..|stack| - 1], x)
  {
    var rest := stack[..|stack| - 1];
    assert forall i :: 0 <= i < |rest| ==> rest[i].node == stack[i].node != x;
  }

  lemma CloseFrameKept(nodes: seq<Node>, f: Frame, at: nat, br: nat, x: Id, read: HeaderReader)
    requires f.node < |nodes| && x < |nodes| && x != f.node
    ensures CloseFrame(nodes, f, at, br, read)[x] == nodes[x]
  {
  }

  lemma DelimiterKept(c: Core, d: nat, line: LineSeen, x: Id, read: HeaderReader)
    requires StackNames(c) && line.Ok() && d < |c.stack| && line.Complete() && x < |c.nodes| && !IsOpen(c.stack, x)
    ensures var r := TakeDelimiter(c, d, line, read);
            x < |r.nodes| && r.nodes[x] == c.nodes[x] && !IsOpen(r.stack, x)
  {
    hide CloseAbove, DelimiterOf;
    CloseAboveKept(c.nodes, c.stack, d, line.start, c.prevBreak, x, read);
    assert c.stack[d].node != x;
  }

  lemma ContentKept(c: Core, line: LineSeen, x: Id, read: HeaderReader)
    requires StackNames(c) && line.Ok() && x < |c.nodes| && !IsOpen(c.stack, x)
    ensures var r := TakeContent(c, line, read);
            x < |r.nodes| && r.nodes[x] == c.nodes[x] && !IsOpen(r.stack, x)
  {
    hide TakeContent;
    ContentNames(c, line, read);
    assert c.stack[|c.stack| - 1].node != x;
    ContentNodes(c, line, x, read);
  }

  lemma ContentNodes(c: Core, line: LineSeen, x: Id, read: HeaderReader)
    requires StackNames(c) && line.Ok() && x < |c.nodes|
    requires c.stack[|c.stack| - 1].node != x || c.stack[|c.stack| - 1].inBody
    ensures var r := TakeContent(c, line, read);
            x < |r.nodes| && r.nodes[x] == c.nodes[x]
  {
    hide FinishHeaders;
    var f := c.stack[|c.stack| - 1];
    assert f in c.stack;
    if f.node != x {
      FinishKept(c.nodes[f.node := c.nodes[f.node].(bodyStart := line.end)], f, line.end, x, read);
    }
  }

  lemma FinishKept(nodes: seq<Node>, f: Frame, at: nat, x: Id, read: HeaderReader)
    requires f.node < |nodes| && x < |nodes| && x != f.node
    ensures FinishHeaders(nodes, f, at, read).nodes[x] == nodes[x]
  {
  }

  /** The frames there were are still there, and at most one is new. */
  lemma ContentNames(c: Core, line: LineSeen, read: HeaderReader)
    requires StackNames(c) && line.Ok()
    ensures var r := TakeContent(c, line, read);
            && |c.nodes| <= |r.nodes| <= |c.nodes| + 1 && |r.stack| == |c.stack| + (|r.nodes| - |c.nodes|)
            && (forall i :: 0 <= i < |c.stack| ==> r.stack[i].node == c.stack[i].node)
            && (|r.nodes| > |c.nodes| ==> r.stack[|c.stack|].node == |c.nodes|)
  {
    hide FinishHeaders;
    assert c.stack[|c.stack| - 1] in c.stack;
  }

  lemma ContentStays(c: Core, line: LineSeen, x: Id, read: HeaderReader)
    requires StackNames(c) && line.Ok() && IsOpen(c.stack, x)
    ensures IsOpen(TakeContent(c, line, read).stack, x)
  {
    hide TakeContent;
    ContentNames(c, line, read);
    var i :| 0 <= i < |c.stack| && c.stack[i].node == x;
    assert TakeContent(c, line, read).stack[i].node == x;
  }

  lemma ProcessKept(c: Core, line: LineSeen, x: Id, read: HeaderReader)
    requires StackNames(c) && line.Ok() && x < |c.nodes| && !IsOpen(c.stack, x)
    ensures var r := ProcessLine(c, line, read);
            x < |r.nodes| && r.nodes[x] == c.nodes[x] && !IsOpen(r.stack, x)
  {
    hide TakeDelimiter, TakeContent;
    match LineDelimiter(c, line)
    case Some(d) => DelimiterKept(c, d, line, x, read);
    case None => ContentKept(c, line, x, read);
  }

  lemma {:induction false} ScanKept(c: Core, t: string, p: nat, x: Id, read: HeaderReader)
    requires StackNames(c) && p <= |t| && x < |c.nodes| && !IsOpen(c.stack, x)
    ensures var r := ScanFrom(c, t, p, read);
            x < |r.nodes| && r.nodes[x] == c.nodes[x] && !IsOpen(r.stack, x)
    decreases |t| - p
  {
    hide ProcessLine, CapFor;
    if p < |t| {
      var end := LineStop(t, p);
      var line := LineOf(t, p, end, CapFor(c));
      ProcessKept(c, line, x, read);
      ScanKept(ProcessLine(c, line, read), t, end, x, read);
    }
  }

  lemma {:induction false} CloseAllKept(nodes: seq<Node>, stack: seq<Frame>, size: nat, x: Id, read: HeaderReader)
    requires (forall f :: f in stack ==> f.node < |nodes|) && x < |nodes| && !IsOpen(stack, x)
    ensures CloseAll(nodes, stack, size, read)[x] == nodes[x]
    decreases |stack|
  {
    if stack != [] {
      var f, rest := stack[|stack| - 1], stack[..|stack| - 1];
      assert f.node != x;
      ClosedBelow(stack, x);
      CloseAllKept(CloseAtEnd(nodes, f, size, read), rest, size, x, read);
    }
  }

  // --- the line that closes a part --------------------------------------------------------------

  /** A part closed by now ends before the last line break, or its body starts and ends after it. */
  ghost predicate Level(n: Node, q: int, p: nat) { n.bodyEnd > q ==> n.bodyStart == n.bodyEnd == p }

  ghost predicate AllLevel(nodes: seq<Node>, stack: seq<Frame>, q: int, p: nat) {
    forall x :: 0 <= x < |nodes| && !IsOpen(stack, x) ==> Level(nodes[x], q, p)
  }

  lemma CloseFrameLevel(nodes: seq<Node>, f: Frame, t: string, ls: nat, p: nat, read: HeaderReader)
    requires f.node < |nodes| && IsLine(t, ls, p) && FrameOk(nodes[f.node], f, t, ls, p) && (p > 0 ==> t[p - 1] == '\n')
    ensures var q := p - BreakLen(t, ls, p);
            var r := CloseFrame(nodes, f, p, BreakLen(t, ls, p), read);
            && (forall x :: |nodes| <= x < |r| ==> Level(r[x], q, p))
            && Level(r[f.node], q, p)
            && r[f.node].bodyEnd <= Max(r[f.node].bodyStart, q)
  {
    hide EndHeadersAt;
    CloseFrameShape(nodes, f, t, ls, p, read);
    var n, q := nodes[f.node], p - BreakLen(t, ls, p);
    if !f.inBody { EndHeadersShape(nodes, f, Max(n.headerStart, q), read); }
  }

  lemma CloseTopLevel(nodes: seq<Node>, stack: seq<Frame>, t: string, ls: nat, p: nat, read: HeaderReader)
    requires Inv(nodes, stack, t, ls, p) && |stack| > 1 && (p > 0 ==> t[p - 1] == '\n')
    requires AllLevel(nodes, stack, p - BreakLen(t, ls, p), p)
    ensures var r := CloseFrame(nodes, stack[|stack| - 1], p, BreakLen(t, ls, p), read);
            && AllLevel(r, stack[..|stack| - 1], p - BreakLen(t, ls, p), p)
            && KidsExact(r, stack[|stack| - 1].node, Some(p))
  {
    hide CloseFrame, Tree, FrameOk, BreakLen, Level;
    var f, rest, q := stack[|stack| - 1], stack[..|stack| - 1], p - BreakLen(t, ls, p);
    var r := CloseFrame(nodes, f, p, BreakLen(t, ls, p), read);
    CloseFrameLevel(nodes, f, t, ls, p, read);
    CloseFrameShape(nodes, f, t, ls, p, read);
    forall x | 0 <= x < |r| && !IsOpen(rest, x) ensures Level(r[x], q, p) {
      PopOpen(stack, x);
    }
    forall i | 0 <= i < |Below(r[f.node])| ensures EndExact(r, f.node, i, Some(p)) {
      TopKid(nodes, stack, t, ls, p, r, i);
    }
  }

  lemma TopKid(nodes: seq<Node>, stack: seq<Frame>, t: string, ls: nat, p: nat, r: seq<Node>, i: nat)
    requires Inv(nodes, stack, t, ls, p) && AllLevel(nodes, stack, p - BreakLen(t, ls, p), p)
             && (p > 0 ==> t[p - 1] == '\n')
    requires var f, q := stack[|stack| - 1], p - BreakLen(t, ls, p);
             && f.node < |r| && i < |Below(r[f.node])| && ClosedBy(nodes, f, r, r[f.node].bodyEnd)
                && Sound(r[f.node], t, p)
             && q <= r[f.node].bodyEnd <= Max(r[f.node].bodyStart, q)
    ensures EndExact(r, stack[|stack| - 1].node, i, Some(p))
  {
    var f, q := stack[|stack| - 1], p - BreakLen(t, ls, p);
    var id := Below(r[f.node])[i];
    if f.inBody {
      assert KidOk(nodes, stack, q, f.node, i);
      TopIsLast(nodes, stack, id);
      assert NodeOk(nodes, stack, t, p, id);
      assert Level(nodes[id], q, p);
      assert p > 0 ==> q < p;
    }
  }

  ghost predicate KidsOk(nodes: seq<Node>, stack: seq<Frame>, q: int, k: Id)
    requires k < |nodes|
  {
    forall i :: 0 <= i < |Below(nodes[k])| ==> KidOk(nodes, stack, q, k, i)
  }

  lemma KidsKept(nodes: seq<Node>, r: seq<Node>, stack: seq<Frame>, q: int, k: Id, closing: Option<nat>)
    requires k < |nodes| <= |r| && !IsOpen(stack, k) && KidsExact(nodes, k, closing)
    requires forall x :: 0 <= x < |nodes| && !IsOpen(stack, x) ==> r[x] == nodes[x]
    requires KidsOk(nodes, stack, q, k)
    ensures KidsExact(r, k, closing)
  {
    forall i | 0 <= i < |Below(r[k])| ensures EndExact(r, k, i, closing) {
      assert KidOk(nodes, stack, q, k, i) && EndExact(nodes, k, i, closing);
    }
  }

  lemma TreeKids(nodes: seq<Node>, stack: seq<Frame>, t: string, ls: nat, p: nat, k: Id)
    requires Inv(nodes, stack, t, ls, p) && k < |nodes|
    ensures KidsOk(nodes, stack, p - BreakLen(t, ls, p), k)
  {
  }

  /** The innermost part closes, and then others do: what is below it stays as it is. */
  lemma ClosedThenOthers(r: seq<Node>, rest: seq<Frame>, d: nat, t: string, ls: nat, p: nat, k: Id, read: HeaderReader)
    requires Inv(r, rest, t, ls, p) && d < |rest| && (p > 0 ==> t[p - 1] == '\n')
    requires k < |r| && !IsOpen(rest, k) && KidsExact(r, k, Some(p))
    ensures forall f :: f in rest ==> f.node < |r|
    ensures KidsExact(CloseAbove(r, rest, d, p, BreakLen(t, ls, p), read), k, Some(p))
  {
    var br := BreakLen(t, ls, p);
    hide Inv, CloseAbove, BreakLen, KidsExact, KidsOk;
    CloseAboveKeeps(r, rest, d, t, ls, p, read);
    TreeKids(r, rest, t, ls, p, k);
    forall x | 0 <= x < |r| && !IsOpen(rest, x) ensures CloseAbove(r, rest, d, p, br, read)[x] == r[x] {
      CloseAboveKept(r, rest, d, p, br, x, read);
    }
    KidsKept(r, CloseAbove(r, rest, d, p, br, read), rest, p - br, k, Some(p));
  }

  lemma {:induction false} CloseAboveExact(nodes: seq<Node>, stack: seq<Frame>, d: nat, t: string, ls: nat, p: nat,
          k: Id, read: HeaderReader)
    requires Inv(nodes, stack, t, ls, p) && d < |stack| && (p > 0 ==> t[p - 1] == '\n')
    requires AllLevel(nodes, stack, p - BreakLen(t, ls, p), p) && IsOpen(stack, k) && !IsOpen(stack[..d + 1], k)
    ensures forall f :: f in stack ==> f.node < |nodes|
    ensures k < |nodes| && KidsExact(CloseAbove(nodes, stack, d, p, BreakLen(t, ls, p), read), k, Some(p))
    decreases |stack|
  {
    hide CloseFrame, Tree, FrameOk, BreakLen, AllLevel, KidsExact;
    CloseAboveKeeps(nodes, stack, d, t, ls, p, read);
    assert stack[..|stack|] == stack;
    var f, rest := stack[|stack| - 1], stack[..|stack| - 1];
    var r := CloseFrame(nodes, f, p, BreakLen(t, ls, p), read);
    CloseTop(nodes, stack, t, ls, p, read);
    CloseTopLevel(nodes, stack, t, ls, p, read);
    PopOpen(stack, k);
    assert rest[..d + 1] == stack[..d + 1];
    if k == f.node {
      ClosedThenOthers(r, rest, d, t, ls, p, k, read);
    } else {
      CloseAboveExact(r, rest, d, t, ls, p, k, read);
      var j :| 0 <= j < |stack| && stack[j].node == k;
    }
  }

  // --- every line --------------------------------------------------------------------------------

  /** Every closed part was closed by the last line read or before it. */
  ghost predicate Early(c: Core, ls: nat) {
    forall x :: 0 <= x < |c.nodes| && !IsOpen(c.stack, x) ==> c.nodes[x].bodyEnd <= ls
  }

  lemma EarlyIsLevel(c: Core, t: string, ls: nat, p: nat)
    requires CoreInv(c, t, ls, p) && Early(c, ls)
    ensures AllLevel(c.nodes, c.stack, p - BreakLen(t, ls, p), p)
  {
  }

  /** After a delimiter line, what is closed ended where the line starts or before. */
  lemma DelimiterEarly(c: Core, d: nat, line: LineSeen, t: string, ls: nat, p: nat, read: HeaderReader)
    requires CoreInv(c, t, ls, p) && StackNames(c) && p < |t| && line.start == p && line.Ok() && d < |c.stack|
             && line.Complete()
    ensures Early(TakeDelimiter(c, d, line, read), p)
  {
    hide Inv, CloseAbove, BreakLen, DelimiterOf;
    LineFeedBefore(c, t, ls, p);
    CloseAboveKeeps(c.nodes, c.stack, d, t, ls, p, read);
    var nodes, below := CloseAbove(c.nodes, c.stack, d, p, c.prevBreak, read), c.stack[..d + 1];
    var r := TakeDelimiter(c, d, line, read);
    forall x | 0 <= x < |r.nodes| && !IsOpen(r.stack, x) ensures r.nodes[x].bodyEnd <= p {
      OpenAfterDelimiter(c, d, line, x, read);
      ClosedEnds(nodes, below, t, ls, p, x);
    }
  }

  lemma ClosedEnds(nodes: seq<Node>, stack: seq<Frame>, t: string, ls: nat, p: nat, x: Id)
    requires Inv(nodes, stack, t, ls, p) && x < |nodes| && !IsOpen(stack, x)
    ensures nodes[x].bodyEnd <= p
  {
    assert NodeOk(nodes, stack, t, p, x);
  }

  lemma OpenAfterDelimiter(c: Core, d: nat, line: LineSeen, x: Id, read: HeaderReader)
    requires StackNames(c) && line.Ok() && d < |c.stack| && line.Complete()
    ensures var r := TakeDelimiter(c, d, line, read);
            var nodes := CloseAbove(c.nodes, c.stack, d, line.start, c.prevBreak, read);
            && (x < |r.nodes| && !IsOpen(r.stack, x) ==> x < |nodes| && r.nodes[x] == nodes[x])
            && (x < |nodes| ==> (IsOpen(r.stack, x) <==> IsOpen(c.stack[..d + 1], x)))
  {
    hide CloseAbove, DelimiterOf;
    var r, below := TakeDelimiter(c, d, line, read), c.stack[..d + 1];
    var nodes := CloseAbove(c.nodes, c.stack, d, line.start, c.prevBreak, read);
    assert |r.stack| >= d + 1 && forall i :: 0 <= i <= d ==> r.stack[i].node == below[i].node;
    assert |r.nodes| > |nodes| ==> r.stack[d + 1].node == |nodes|;
    assert r.stack[d].node == c.stack[d].node;
    if IsOpen(below, x) {
      var i :| 0 <= i < |below| && below[i].node == x;
      assert r.stack[i].node == x;
    }
    if x < |nodes| && IsOpen(r.stack, x) {
      var i :| 0 <= i < |r.stack| && r.stack[i].node == x;
      assert below[i].node == x;
    }
  }

  lemma ContentEarly(c: Core, line: LineSeen, ls: nat, p: nat, read: HeaderReader)
    requires StackNames(c) && line.Ok() && Early(c, ls) && ls <= p
    ensures Early(TakeContent(c, line, read), p)
  {
    hide TakeContent;
    var r := TakeContent(c, line, read);
    forall x | 0 <= x < |r.nodes| && !IsOpen(r.stack, x) ensures r.nodes[x].bodyEnd <= p {
      ContentOpens(c, line, read);
      if IsOpen(c.stack, x) { ContentStays(c, line, x, read); } else { ContentKept(c, line, x, read); }
    }
  }

  lemma ContentOpens(c: Core, line: LineSeen, read: HeaderReader)
    requires StackNames(c) && line.Ok()
    ensures var r := TakeContent(c, line, read);
            |c.nodes| <= |r.nodes| <= |c.nodes| + 1 && (|r.nodes| > |c.nodes| ==> IsOpen(r.stack, |c.nodes|))
  {
    hide TakeContent;
    ContentNames(c, line, read);
  }

  lemma LineEarly(c: Core, t: string, ls: nat, p: nat, read: HeaderReader)
    requires CoreInv(c, t, ls, p) && StackNames(c) && Early(c, ls) && p < |t|
    ensures Early(ProcessLine(c, LineOf(t, p, LineStop(t, p), CapFor(c)), read), p)
  {
    hide CoreInv, Early, TakeDelimiter, TakeContent, LineStop, CapFor;
    var line := LineOf(t, p, LineStop(t, p), CapFor(c));
    InvInside(c, t, ls, p);
    match LineDelimiter(c, line)
    case Some(d) => DelimiterEarly(c, d, line, t, ls, p, read);
    case None => ContentEarly(c, line, ls, p, read);
  }

  /** The line at which a part closes decides how it and the parts below it end. */
  lemma LineCloses(c: Core, t: string, ls: nat, p: nat, k: Id, read: HeaderReader)
    requires CoreInv(c, t, ls, p) && StackNames(c) && Early(c, ls) && p < |t| && IsOpen(c.stack, k)
    requires !IsOpen(ProcessLine(c, LineOf(t, p, LineStop(t, p), CapFor(c)), read).stack, k)
    ensures var r := ProcessLine(c, LineOf(t, p, LineStop(t, p), CapFor(c)), read);
            k < |r.nodes| && KidsExact(r.nodes, k, Some(p))
  {
    hide Inv, Early, TakeDelimiter, TakeContent, LineStop, CapFor, CloseAbove, KidsExact, AllLevel, BreakLen;
    var line := LineOf(t, p, LineStop(t, p), CapFor(c));
    OpenIsNode(c, k);
    ContentStays(c, line, k, read);
    var d := LineDelimiter(c, line).value;
    EarlyIsLevel(c, t, ls, p);
    LineFeedBefore(c, t, ls, p);
    OpenAfterDelimiter(c, d, line, k, read);
    CloseAboveKeeps(c.nodes, c.stack, d, t, ls, p, read);
    CloseAboveExact(c.nodes, c.stack, d, t, ls, p, k, read);
    var nodes, below := CloseAbove(c.nodes, c.stack, d, p, c.prevBreak, read), c.stack[..d + 1];
    var r := TakeDelimiter(c, d, line, read);
    TreeKids(nodes, below, t, ls, p, k);
    forall x | 0 <= x < |nodes| && !IsOpen(below, x) ensures |nodes| <= |r.nodes| && r.nodes[x] == nodes[x] {
      DelimiterGrows(c, d, line, read);
      OpenAfterDelimiter(c, d, line, x, read);
    }
    KidsKept(nodes, r.nodes, below, p - BreakLen(t, ls, p), k, Some(p));
  }

  lemma DelimiterGrows(c: Core, d: nat, line: LineSeen, read: HeaderReader)
    requires StackNames(c) && line.Ok() && d < |c.stack| && line.Complete()
    ensures |CloseAbove(c.nodes, c.stack, d, line.start, c.prevBreak, read)| <= |TakeDelimiter(c, d, line, read).nodes|
  {
    hide CloseAbove, DelimiterOf;
  }

  lemma OpenIsNode(c: Core, k: Id)
    requires StackNames(c) && IsOpen(c.stack, k)
    ensures k < |c.nodes|
  {
    var i :| 0 <= i < |c.stack| && c.stack[i].node == k;
    assert c.stack[i] in c.stack;
  }

  // --- the whole message -------------------------------------------------------------------------

  /** A part still open at the end of the message ends there, past nothing below it. */
  lemma {:induction false} CloseAllEnds(nodes: seq<Node>, stack: seq<Frame>, t: string, ls: nat, k: Id,
          read: HeaderReader)
    requires ls <= |t| && Tree(nodes, stack, t, |t|, |t|) && StackOk(nodes, stack) && IsOpen(stack, k)
    requires forall i :: 0 <= i < |stack| ==>
             stack[i].node < |nodes| && FrameOk(nodes[stack[i].node], stack[i], t, ls, |t|)
    ensures (forall f :: f in stack ==> f.node < |nodes|) && k < |nodes|
            && CloseAll(nodes, stack, |t|, read)[k].bodyEnd == |t|
    decreases |stack|
  {
    hide Tree, FrameOk, CloseAtEnd, Sound;
    CloseAllKeeps(nodes, stack, t, ls, read);
    var f, rest := stack[|stack| - 1], stack[..|stack| - 1];
    var r := CloseAtEnd(nodes, f, |t|, read);
    CloseEndShape(nodes, f, t, ls, read);
    PopOpen(stack, k);
    if k == f.node {
      forall g | g in rest ensures g.node < |r| {
        assert g in stack;
      }
      CloseAllKept(r, rest, |t|, k, read);
    } else {
      CloseTree(nodes, stack, t, |t|, |t|, r);
      var j :| 0 <= j < |rest| && rest[j].node == k;
      forall i | 0 <= i < |rest| ensures rest[i].node < |r| && r[rest[i].node] == nodes[stack[i].node] {
        assert stack[i].node < f.node;
      }
      CloseAllEnds(r, rest, t, ls, k, read);
    }
  }

  /** The structure of the rest of the message, from a state of the scanner. */
  ghost function Rest(c: Core, t: string, p: nat, read: HeaderReader): (nodes: seq<Node>)
    requires StackNames(c) && p <= |t|
    ensures |nodes| >= 1
  {
    var r := ScanFrom(c, t, p, read);
    assert r.stack[0] in r.stack;
    CloseAll(r.nodes, r.stack, |t|, read)
  }

  lemma RestKept(c: Core, t: string, p: nat, x: Id, read: HeaderReader)
    requires StackNames(c) && p <= |t| && x < |c.nodes| && !IsOpen(c.stack, x)
    ensures x < |Rest(c, t, p, read)| && Rest(c, t, p, read)[x] == c.nodes[x]
  {
    hide ScanFrom, CloseAll;
    ScanKept(c, t, p, x, read);
    var r := ScanFrom(c, t, p, read);
    CloseAllKept(r.nodes, r.stack, |t|, x, read);
  }

  /** Once closed, a part and what is below it end as they do in the structure of the message. */
  lemma ClosedRest(c: Core, t: string, ls: nat, p: nat, k: Id, closing: Option<nat>, read: HeaderReader)
    requires CoreInv(c, t, ls, p) && StackNames(c) && p <= |t| && k < |c.nodes| && !IsOpen(c.stack, k)
             && KidsExact(c.nodes, k, closing)
    ensures k < |Rest(c, t, p, read)| && KidsExact(Rest(c, t, p, read), k, closing)
  {
    hide Rest, KidsExact, Inv, BreakLen, KidsOk;
    var nodes := Rest(c, t, p, read);
    forall x | 0 <= x < |c.nodes| && !IsOpen(c.stack, x) ensures x < |nodes| && nodes[x] == c.nodes[x] {
      RestKept(c, t, p, x, read);
    }
    RestGrows(c, t, p, read);
    TreeKids(c.nodes, c.stack, t, ls, p, k);
    KidsKept(c.nodes, nodes, c.stack, p - BreakLen(t, ls, p), k, closing);
  }

  lemma {:induction false} ScanGrows(c: Core, t: string, p: nat, read: HeaderReader)
    requires StackNames(c) && p <= |t|
    ensures |c.nodes| <= |ScanFrom(c, t, p, read).nodes|
    decreases |t| - p
  {
    hide ProcessLine, CapFor;
    if p < |t| {
      var line := LineOf(t, p, LineStop(t, p), CapFor(c));
      LineGrows(c, line, read);
      ScanGrows(ProcessLine(c, line, read), t, LineStop(t, p), read);
    }
  }

  lemma LineGrows(c: Core, line: LineSeen, read: HeaderReader)
    requires StackNames(c) && line.Ok()
    ensures |c.nodes| <= |ProcessLine(c, line, read).nodes|
  {
    hide TakeDelimiter, TakeContent;
    match LineDelimiter(c, line)
    case Some(d) => DelimiterGrows(c, d, line, read);
    case None => ContentOpens(c, line, read);
  }

  lemma RestGrows(c: Core, t: string, p: nat, read: HeaderReader)
    requires StackNames(c) && p <= |t|
    ensures |c.nodes| <= |Rest(c, t, p, read)|
  {
    hide ScanFrom, CloseAll;
    ScanGrows(c, t, p, read);
  }

  /** At the end of the message. */
  lemma EndExactly(c: Core, t: string, ls: nat, k: Id, read: HeaderReader)
    requires CoreInv(c, t, ls, |t|) && StackNames(c) && k < |Rest(c, t, |t|, read)|
    requires k >= |c.nodes| || IsOpen(c.stack, k)
    ensures KidsExact(Rest(c, t, |t|, read), k, None)
  {
    hide CloseAll, Tree, FrameOk, BreakLen, Sound;
    var nodes := Rest(c, t, |t|, read);
    InvInside(c, t, ls, |t|);
    TreeLater(c.nodes, c.stack, c.stack, t, |t| - BreakLen(t, ls, |t|), |t|, |t|, |t|);
    CloseAllKeeps(c.nodes, c.stack, t, ls, read);
    if IsOpen(c.stack, k) {
      CloseAllEnds(c.nodes, c.stack, t, ls, k, read);
      NothingPast(nodes, t, k);
    } else {
      CloseAllNew(c.nodes, c.stack, t, k, read);
    }
  }

  lemma NothingPast(nodes: seq<Node>, t: string, k: Id)
    requires Tree(nodes, [], t, |t|, |t|) && k < |nodes| && nodes[k].bodyEnd == |t|
    ensures KidsExact(nodes, k, None)
  {
    forall i | 0 <= i < |Below(nodes[k])| ensures EndExact(nodes, k, i, None) {
      assert KidOk(nodes, [], |t|, k, i);
      assert NodeOk(nodes, [], t, |t|, Below(nodes[k])[i]);
    }
  }

  /** A part that the end of the message opens and closes at once has none below it. */
  lemma {:induction false} CloseAllNew(nodes: seq<Node>, stack: seq<Frame>, t: string, k: Id, read: HeaderReader)
    requires forall f :: f in stack ==> f.node < |nodes|
    requires |nodes| <= k < |CloseAll(nodes, stack, |t|, read)|
    ensures Below(CloseAll(nodes, stack, |t|, read)[k]) == []
    decreases |stack|
  {
    hide CloseAtEnd;
    if stack != [] {
      var f, rest := stack[|stack| - 1], stack[..|stack| - 1];
      var r := CloseAtEnd(nodes, f, |t|, read);
      AtEndNew(nodes, f, |t|, read);
      forall g | g in rest ensures g.node < |nodes| {
        assert g in stack;
      }
      if k < |r| {
        NotIn(rest, |nodes|, k);
        CloseAllKept(r, rest, |t|, k, read);
      } else {
        CloseAllNew(r, rest, t, k, read);
      }
    }
  }

  lemma NotIn(stack: seq<Frame>, n: nat, k: Id)
    requires (forall f :: f in stack ==> f.node < n) && k >= n
    ensures !IsOpen(stack, k)
  {
    assert forall i :: 0 <= i < |stack| ==> stack[i] in stack;
  }

  lemma AtEndNew(nodes: seq<Node>, f: Frame, size: nat, read: HeaderReader)
    requires f.node < |nodes|
    ensures var r := CloseAtEnd(nodes, f, size, read);
            forall x :: |nodes| <= x < |r| ==> Below(r[x]) == []
  {
  }

  /** A part that a line opens and closes at once has none below it. */
  lemma {:induction false} CloseAboveNew(nodes: seq<Node>, stack: seq<Frame>, d: nat, at: nat, br: nat, k: Id,
          read: HeaderReader)
    requires forall f :: f in stack ==> f.node < |nodes|
    requires |nodes| <= k < |CloseAbove(nodes, stack, d, at, br, read)|
    ensures Below(CloseAbove(nodes, stack, d, at, br, read)[k]) == []
    decreases |stack|
  {
    hide CloseFrame;
    if |stack| > d + 1 {
      var f, rest := stack[|stack| - 1], stack[..|stack| - 1];
      var r := CloseFrame(nodes, f, at, br, read);
      CloseFrameNew(nodes, f, at, br, read);
      forall g | g in rest ensures g.node < |nodes| {
        assert g in stack;
      }
      if k < |r| {
        NotIn(rest, |nodes|, k);
        CloseAboveKept(r, rest, d, at, br, k, read);
      } else {
        CloseAboveNew(r, rest, d, at, br, k, read);
      }
    }
  }

  lemma CloseFrameNew(nodes: seq<Node>, f: Frame, at: nat, br: nat, read: HeaderReader)
    requires f.node < |nodes|
    ensures var r := CloseFrame(nodes, f, at, br, read);
            forall x :: |nodes| <= x < |r| ==> Below(r[x]) == []
  {
  }

  lemma LineNew(c: Core, line: LineSeen, k: Id, read: HeaderReader)
    requires StackNames(c) && line.Ok()
    requires var r := ProcessLine(c, line, read); |c.nodes| <= k < |r.nodes| && !IsOpen(r.stack, k)
    ensures Below(ProcessLine(c, line, read).nodes[k]) == []
  {
    hide TakeDelimiter, TakeContent, CloseAbove;
    ContentOpens(c, line, read);
    var d := LineDelimiter(c, line).value;
    OpenAfterDelimiter(c, d, line, k, read);
    CloseAboveNew(c.nodes, c.stack, d, line.start, c.prevBreak, k, read);
  }

  lemma {:induction false} ScanExact(c: Core, t: string, ls: nat, p: nat, k: Id, read: HeaderReader)
    requires CoreInv(c, t, ls, p) && StackNames(c) && Early(c, ls) && p <= |t|
    requires k < |Rest(c, t, p, read)| && (k >= |c.nodes| || IsOpen(c.stack, k))
    ensures KidsExact(Rest(c, t, p, read), k, ClosingLine(c, t, p, k, read))
    decreases |t| - p
  {
    hide CoreInv, Early, ProcessLine, CapFor, KidsExact, CloseAll;
    if p == |t| {
      EndExactly(c, t, ls, k, read);
    } else {
      var end := LineStop(t, p);
      var line := LineOf(t, p, end, CapFor(c));
      var next := ProcessLine(c, line, read);
      ProcessLineKeeps(c, t, ls, p, read);
      LineEarly(c, t, ls, p, read);
      assert Rest(c, t, p, read) == Rest(next, t, end, read);
      if k >= |next.nodes| || IsOpen(next.stack, k) {
        LineGrows(c, line, read);
        if k >= |c.nodes| { NotIn(c.stack, |c.nodes|, k); }
        ScanExact(next, t, p, end, k, read);
      } else if IsOpen(c.stack, k) {
        LineCloses(c, t, ls, p, k, read);
        ClosedRest(next, t, p, end, k, Some(p), read);
      } else {
        LineNew(c, line, k, read);
        RestKept(next, t, end, k, read);
        NoKids(Rest(c, t, p, read), k, ClosingLine(c, t, p, k, read));
      }
    }
  }

  lemma NoKids(nodes: seq<Node>, k: Id, closing: Option<nat>)
    requires k < |nodes| && Below(nodes[k]) == []
    ensures KidsExact(nodes, k, closing)
  {
  }

  // --- the closing line is a delimiter ----------------------------------------------------------

  ghost predicate Same(a: Node, b: Node) { a.kind == b.kind && a.boundary == b.boundary }

  lemma {:induction false} CloseAboveSame(nodes: seq<Node>, stack: seq<Frame>, d: nat, t: string, ls: nat, p: nat,
          x: Id, read: HeaderReader)
    requires Inv(nodes, stack, t, ls, p) && d < |stack| && (p > 0 ==> t[p - 1] == '\n') && x < |nodes|
             && nodes[x].kind == Multipart
    ensures forall f :: f in stack ==> f.node < |nodes|
    ensures Same(CloseAbove(nodes, stack, d, p, BreakLen(t, ls, p), read)[x], nodes[x])
    decreases |stack|
  {
    hide CloseFrame, Tree, FrameOk, BreakLen;
    CloseAboveKeeps(nodes, stack, d, t, ls, p, read);
    if |stack| > d + 1 {
      var f, rest := stack[|stack| - 1], stack[..|stack| - 1];
      CloseTop(nodes, stack, t, ls, p, read);
      CloseFrameSame(nodes, f, t, ls, p, x, read);
      CloseAboveSame(CloseFrame(nodes, f, p, BreakLen(t, ls, p), read), rest, d, t, ls, p, x, read);
    }
  }

  lemma CloseFrameSame(nodes: seq<Node>, f: Frame, t: string, ls: nat, p: nat, x: Id, read: HeaderReader)
    requires f.node < |nodes| && ls <= p <= |t| && FrameOk(nodes[f.node], f, t, ls, p) && x < |nodes|
             && nodes[x].kind == Multipart
    ensures Same(CloseFrame(nodes, f, p, BreakLen(t, ls, p), read)[x], nodes[x])
  {
  }

  lemma LineSame(c: Core, t: string, ls: nat, p: nat, x: Id, read: HeaderReader)
    requires CoreInv(c, t, ls, p) && StackNames(c) && p < |t| && x < |c.nodes| && c.nodes[x].kind == Multipart
    ensures var r := ProcessLine(c, LineOf(t, p, LineStop(t, p), CapFor(c)), read);
            x < |r.nodes| && Same(r.nodes[x], c.nodes[x])
  {
    hide Tree, TakeContent, CapFor, CloseAbove, BreakLen, LineStop;
    var line := LineOf(t, p, LineStop(t, p), CapFor(c));
    match LineDelimiter(c, line)
    case Some(d) =>
      LineFeedBefore(c, t, ls, p);
      CloseAboveSame(c.nodes, c.stack, d, t, ls, p, x, read);
    case None =>
      assert FrameOk(c.nodes[c.stack[|c.stack| - 1].node], c.stack[|c.stack| - 1], t, ls, p);
      ContentNodes(c, line, x, read);
  }

  lemma {:induction false} CloseAllSame(nodes: seq<Node>, stack: seq<Frame>, t: string, ls: nat, x: Id,
          read: HeaderReader)
    requires ls <= |t| && Tree(nodes, stack, t, |t|, |t|) && (stack == [] || StackOk(nodes, stack))
    requires forall i :: 0 <= i < |stack| ==>
             stack[i].node < |nodes| && FrameOk(nodes[stack[i].node], stack[i], t, ls, |t|)
    requires x < |nodes| && nodes[x].kind == Multipart
    ensures forall f :: f in stack ==> f.node < |nodes|
    ensures Same(CloseAll(nodes, stack, |t|, read)[x], nodes[x])
    decreases |stack|
  {
    hide Tree, FrameOk, CloseAtEnd, Sound;
    CloseAllKeeps(nodes, stack, t, ls, read);
    if stack != [] {
      var rest, f := stack[..|stack| - 1], stack[|stack| - 1];
      var r := CloseAtEnd(nodes, f, |t|, read);
      CloseEndShape(nodes, f, t, ls, read);
      CloseTree(nodes, stack, t, |t|, |t|, r);
      AtEndSame(nodes, f, t, ls, x, read);
      forall i | 0 <= i < |rest| ensures rest[i].node < |r| && r[rest[i].node] == nodes[stack[i].node] {
        assert stack[i].node < f.node;
      }
      CloseAllSame(r, rest, t, ls, x, read);
    }
  }

  lemma AtEndSame(nodes: seq<Node>, f: Frame, t: string, ls: nat, x: Id, read: HeaderReader)
    requires f.node < |nodes| && ls <= |t| && FrameOk(nodes[f.node], f, t, ls, |t|) && x < |nodes|
             && nodes[x].kind == Multipart
    ensures Same(CloseAtEnd(nodes, f, |t|, read)[x], nodes[x])
  {
  }

  /** What is a multipart now is that multipart in the structure of the message. */
  lemma {:induction false} RestSame(c: Core, t: string, ls: nat, p: nat, x: Id, read: HeaderReader)
    requires CoreInv(c, t, ls, p) && StackNames(c) && p <= |t| && x < |c.nodes| && c.nodes[x].kind == Multipart
    ensures x < |Rest(c, t, p, read)| && Same(Rest(c, t, p, read)[x], c.nodes[x])
    decreases |t| - p
  {
    hide ProcessLine, CapFor, CloseAll, Inv;
    if p == |t| {
      EndSame(c, t, ls, x, read);
    } else {
      LineSame(c, t, ls, p, x, read);
      ProcessLineKeeps(c, t, ls, p, read);
      var end := LineStop(t, p);
      var next := ProcessLine(c, LineOf(t, p, end, CapFor(c)), read);
      RestSame(next, t, p, end, x, read);
    }
  }

  lemma EndSame(c: Core, t: string, ls: nat, x: Id, read: HeaderReader)
    requires CoreInv(c, t, ls, |t|) && StackNames(c) && x < |c.nodes| && c.nodes[x].kind == Multipart
    ensures x < |Rest(c, t, |t|, read)| && Same(Rest(c, t, |t|, read)[x], c.nodes[x])
  {
    hide CloseAll, Tree, FrameOk, BreakLen;
    TreeLater(c.nodes, c.stack, c.stack, t, |t| - BreakLen(t, ls, |t|), |t|, |t|, |t|);
    CloseAllSame(c.nodes, c.stack, t, ls, x, read);
  }

  /** The line of t at `at`, without its break, is a delimiter line of one of the multiparts. */
  ghost predicate DelimiterAt(nodes: seq<Node>, t: string, at: nat) {
    at < |t| && exists a | 0 <= a < |nodes| :: DelimiterOfPart(nodes[a], LineContent(t, at))
  }

  ghost predicate DelimiterOfPart(n: Node, content: string) {
    && n.kind == Multipart && n.boundary.Some?
    && (Delimits(content, n.boundary.value, false) || Delimits(content, n.boundary.value, true))
  }

  ghost function LineContent(t: string, at: nat): (s: string)
    requires at < |t|
  {
    var end := LineStop(t, at);
    t[at..end - BreakLen(t, at, end)]
  }

  lemma LineIsDelimiter(c: Core, t: string, p: nat)
    requires StackNames(c) && p < |t| && LineDelimiter(c, LineOf(t, p, LineStop(t, p), CapFor(c))).Some?
    ensures var d := LineDelimiter(c, LineOf(t, p, LineStop(t, p), CapFor(c))).value;
            c.stack[d].node < |c.nodes| && DelimiterOfPart(c.nodes[c.stack[d].node], LineContent(t, p))
  {
    hide CapFor, LineStop;
    var end := LineStop(t, p);
    var line := LineOf(t, p, end, CapFor(c));
    assert line.raw == t[p..end];
    assert line.raw[..line.ContentLen()] == LineContent(t, p);
    var content := LineContent(t, p);
    var d := LineDelimiter(c, line).value;
    assert c.stack[d] in c.stack;
    MatchesHaveHyphens(content, c.nodes[c.stack[d].node].boundary.value, line.raw);
  }

  lemma MatchesHaveHyphens(content: string, boundary: string, raw: string)
    requires |content| <= |raw| && content == raw[..|content|] && |raw| >= 2 && raw[0] == '-' && raw[1] == '-'
    requires MatchDelimiter(content, boundary) != NotDelimiter
    ensures |content| >= 2 && content[..2] == "--"
  {
  }

  /** The line that closes a part is a delimiter line of a multipart of the message. */
  lemma {:induction false} ClosedByDelimiter(c: Core, t: string, ls: nat, p: nat, k: Id, read: HeaderReader)
    requires CoreInv(c, t, ls, p) && StackNames(c) && p <= |t| && ClosingLine(c, t, p, k, read).Some?
    ensures DelimiterAt(Rest(c, t, p, read), t, ClosingLine(c, t, p, k, read).value)
    decreases |t| - p
  {
    hide ProcessLine, CapFor, CloseAll, Inv, LineContent, DelimiterOfPart;
    var end := LineStop(t, p);
    var line := LineOf(t, p, end, CapFor(c));
    var next := ProcessLine(c, line, read);
    ProcessLineKeeps(c, t, ls, p, read);
    if IsOpen(c.stack, k) && !IsOpen(next.stack, k) {
      ClosesByDelimiter(c, line, k, read);
      LineIsDelimiter(c, t, p);
      var a := c.stack[LineDelimiter(c, line).value].node;
      IsMultipartNode(c.nodes[a], LineContent(t, p));
      RestSame(c, t, ls, p, a, read);
      SameDelimiter(Rest(c, t, p, read)[a], c.nodes[a], LineContent(t, p));
    } else {
      ClosedByDelimiter(next, t, p, end, k, read);
    }
  }

  lemma ClosesByDelimiter(c: Core, line: LineSeen, k: Id, read: HeaderReader)
    requires StackNames(c) && line.Ok() && IsOpen(c.stack, k) && !IsOpen(ProcessLine(c, line, read).stack, k)
    ensures LineDelimiter(c, line).Some?
  {
    hide TakeDelimiter, TakeContent;
    ContentStays(c, line, k, read);
  }

  lemma IsMultipartNode(n: Node, content: string)
    requires DelimiterOfPart(n, content)
    ensures n.kind == Multipart
  {
  }

  lemma SameDelimiter(a: Node, b: Node, content: string)
    requires Same(a, b) && DelimiterOfPart(b, content)
    ensures DelimiterOfPart(a, content)
  {
  }

  /**
   For every message and every reading of header blocks: a part ends past its parent exactly when its
   body starts where the line that closes the parent starts, and the parent's body before that. That line
   is a delimiter line of a multipart, and the part ends at most two octets past its parent.
  */
  lemma PastParentExactly(t: string, read: HeaderReader, k: Id, i: nat)
    requires k < |Structure(t, read)| && i < |Below(Structure(t, read)[k])|
    ensures var nodes, closing := Structure(t, read), ClosingLine(Start(read), t, 0, k, read);
            && EndExact(nodes, k, i, closing)
            && (closing.Some? ==> DelimiterAt(nodes, t, closing.value))
            && EndsBy(nodes[Below(nodes[k])[i]], nodes[k].bodyEnd)
  {
    hide ScanFrom, CloseAll, ClosingLine, DelimiterAt, Inv;
    StartOk(t, read);
    var c := Start(read);
    assert c.stack[0].node == 0;
    assert IsOpen(c.stack, 0);
    assert Rest(c, t, 0, read) == Structure(t, read);
    StartIsEarly(read);
    ScanExact(c, t, 0, 0, k, read);
    if ClosingLine(c, t, 0, k, read).Some? { ClosedByDelimiter(c, t, 0, 0, k, read); }
    StructureSound(t, read);
    assert WellPlaced(Structure(t, read), k, i);
  }

  lemma StartIsEarly(read: HeaderReader)
    ensures Early(Start(read), 0)
  {
    var c := Start(read);
    assert c.stack[0].node == 0;
  }
}
