/** The header block of a part, as it is handed to the header parser, is the part's own header octets. */
module MimeHeaders {
  import opened MimeScan
  import opened MimeProofs

  /** The text w stands in t at i. */
  ghost predicate Stands(t: string, i: nat, w: string) { i + |w| <= |t| && t[i..i + |w|] == w }

  /** An empty line of t, from a to b. */
  ghost predicate EmptyLineAt(t: string, a: nat, b: nat) {
    (b == a + 1 && Stands(t, a, "\n")) || (b == a + 2 && Stands(t, a, "\r\n"))
  }

  /**
   Unless it was cut short, the block is the text where the headers start, and a body after it follows an
   empty line.
  */
  ghost predicate HeadersOk(n: Node, t: string) {
    var after := n.headerStart + |n.headers|;
    n.headersTruncated || (Stands(t, n.headerStart, n.headers)
      && (n.bodyStart <= after || EmptyLineAt(t, after, n.bodyStart)))
  }

  /** The part at the top of the stack, still in its headers: all its lines so far are kept. */
  ghost predicate TopOk(nodes: seq<Node>, stack: seq<Frame>, t: string, p: nat) {
    stack == [] || (var f := stack[|stack| - 1];
      f.node < |nodes| && (f.inBody || CollectedOk(nodes[f.node], f.block, t, p)))
  }

  ghost predicate CollectedOk(n: Node, block: string, t: string, p: nat) {
    n.headersTruncated || (Stands(t, n.headerStart, block) && n.headerStart + |block| == p)
  }

  ghost predicate AllHeaders(nodes: seq<Node>, t: string) {
    forall k :: 0 <= k < |nodes| ==> HeadersOk(nodes[k], t)
  }

  lemma EndHeadersKeeps(nodes: seq<Node>, f: Frame, end: nat, t: string, p: nat, read: HeaderReader)
    requires f.node < |nodes| && AllHeaders(nodes, t) && CollectedOk(nodes[f.node], f.block, t, p) && end <= p <= |t|
    ensures AllHeaders(EndHeadersAt(nodes, f, end, read), t)
  {
    assert t[end..end] == "";
  }

  lemma CloseFrameKeeps(nodes: seq<Node>, stack: seq<Frame>, t: string, ls: nat, p: nat, read: HeaderReader)
    requires Inv(nodes, stack, t, ls, p) && AllHeaders(nodes, t) && TopOk(nodes, stack, t, p)
    ensures AllHeaders(CloseFrame(nodes, stack[|stack| - 1], p, BreakLen(t, ls, p), read), t)
  {
    hide EndHeadersAt, Tree, BreakLen;
    var f := stack[|stack| - 1];
    if !f.inBody { EndHeadersKeeps(nodes, f, Max(nodes[f.node].headerStart, p - BreakLen(t, ls, p)), t, p, read); }
  }

  lemma {:induction false} CloseAboveHeaders(nodes: seq<Node>, stack: seq<Frame>, d: nat, t: string, ls: nat, p: nat,
          read: HeaderReader)
    requires Inv(nodes, stack, t, ls, p) && d < |stack| && (p > 0 ==> t[p - 1] == '\n')
    requires AllHeaders(nodes, t) && TopOk(nodes, stack, t, p)
    ensures (forall f :: f in stack ==> f.node < |nodes|)
            && AllHeaders(CloseAbove(nodes, stack, d, p, BreakLen(t, ls, p), read), t)
    decreases |stack|
  {
    hide AllHeaders, CloseFrame, Tree, FrameOk, BreakLen;
    CloseAboveKeeps(nodes, stack, d, t, ls, p, read);
    if |stack| > d + 1 {
      CloseFrameKeeps(nodes, stack, t, ls, p, read);
      CloseTop(nodes, stack, t, ls, p, read);
      CloseAboveHeaders(CloseFrame(nodes, stack[|stack| - 1], p, BreakLen(t, ls, p), read), stack[..|stack| - 1], d, t,
        ls, p, read);
    }
  }

  lemma OpenChildHeaders(nodes: seq<Node>, stack: seq<Frame>, budget: int, line: LineSeen, t: string,
          read: HeaderReader)
    requires AllHeaders(nodes, t) && line.end <= |t| && |stack| > 0 && (forall f :: f in stack ==> f.node < |nodes|)
             && stack[|stack| - 1].inBody
    ensures var r := OpenChild(nodes, stack, budget, line, read);
            AllHeaders(r.nodes, t) && TopOk(r.nodes, r.stack, t, line.end)
  {
    assert t[line.end..line.end] == "";
    assert stack[|stack| - 1] in stack;
  }

  lemma DelimiterHeaders(c: Core, d: nat, line: LineSeen, t: string, ls: nat, p: nat, end: nat, read: HeaderReader)
    requires CoreInv(c, t, ls, p) && p < end <= |t| && StackNames(c) && d < |c.stack| && IsLine(t, p, end)
    requires AllHeaders(c.nodes, t) && TopOk(c.nodes, c.stack, t, p)
    requires line.start == p && line.end == end && line.Ok() && line.Complete()
    requires DelimiterOf(c.nodes, c.stack[d], line.raw[..line.ContentLen()]) != NotDelimiter
    ensures var r := TakeDelimiter(c, d, line, read);
            AllHeaders(r.nodes, t) && TopOk(r.nodes, r.stack, t, end)
  {
    hide AllHeaders, Inv, OpenChild, BreakLen, CloseAbove;
    LineFeedBefore(c, t, ls, p);
    CloseAboveHeaders(c.nodes, c.stack, d, t, ls, p, read);
    var nodes := CloseAbove(c.nodes, c.stack, d, p, c.prevBreak, read);
    var stack := CountAll(c.stack[..d + 1], line.brLen, line.ContentLen());
    assert c.stack[d] in c.stack;
    var parts := stack[d := stack[d].(phase := Parts)];
    forall f | f in parts ensures f.node < |nodes| {
      var i :| 0 <= i < |parts| && parts[i] == f;
      assert c.stack[i] in c.stack;
    }
    OpenChildHeaders(nodes, parts, c.budget, line, t, read);
  }

  /** An empty line is its break alone. */
  lemma EmptyLine(t: string, p: nat, end: nat)
    requires p < end <= |t| && end - p == BreakLen(t, p, end)
    ensures EmptyLineAt(t, p, end)
  {
  }

  lemma FinishTopHeaders(nodes: seq<Node>, f: Frame, t: string, p: nat, end: nat, read: HeaderReader)
    requires f.node < |nodes| && AllHeaders(nodes, t) && CollectedOk(nodes[f.node], f.block, t, p)
    requires p < end <= |t| && end - p == BreakLen(t, p, end)
    ensures var r := FinishHeaders(nodes[f.node := nodes[f.node].(bodyStart := end)], f, end, read);
            AllHeaders(r.nodes, t)
  {
    EmptyLine(t, p, end);
    assert t[end..end] == "";
  }

  lemma ContentHeaders(c: Core, line: LineSeen, t: string, p: nat, end: nat, read: HeaderReader)
    requires StackNames(c) && p < end <= |t| && AllHeaders(c.nodes, t) && TopOk(c.nodes, c.stack, t, p)
    requires line == LineOf(t, p, end, CapFor(c))
    ensures var r := TakeContent(c, line, read);
            AllHeaders(r.nodes, t) && TopOk(r.nodes, r.stack, t, end)
  {
    hide FinishHeaders, BreakLen;
    var k := |c.stack| - 1;
    assert c.stack[k] in c.stack;
    var f := c.stack[k];
    if !f.inBody {
      var n := c.nodes[f.node];
      if line.ContentLen() == 0 && line.brLen > 0 {
        FinishTopHeaders(c.nodes, f, t, p, end, read);
        var r := FinishHeaders(c.nodes[f.node := n.(bodyStart := end)], f, end, read);
        NewInner(c.nodes[f.node := n.(bodyStart := end)], f, end, t, read);
        assert r.inner.Some? ==> CollectedOk(r.nodes[|c.nodes|], "", t, end);
      } else if line.Complete() && !n.headersTruncated {
        assert line.raw == t[p..end];
        assert t[n.headerStart..end] == t[n.headerStart..p] + t[p..end];
      }
    }
  }

  lemma NewInner(nodes: seq<Node>, f: Frame, at: nat, t: string, read: HeaderReader)
    requires f.node < |nodes| && at <= |t|
    ensures var r := FinishHeaders(nodes, f, at, read);
            r.inner.Some? ==> CollectedOk(r.nodes[|nodes|], "", t, at)
  {
    assert t[at..at] == "";
  }

  lemma {:induction false} ScanHeaders(c: Core, t: string, ls: nat, p: nat, read: HeaderReader)
    requires CoreInv(c, t, ls, p) && StackNames(c) && p <= |t| && AllHeaders(c.nodes, t)
             && TopOk(c.nodes, c.stack, t, p)
    ensures var r := ScanFrom(c, t, p, read);
            AllHeaders(r.nodes, t) && TopOk(r.nodes, r.stack, t, |t|)
    decreases |t| - p
  {
    hide CoreInv, AllHeaders, TopOk, TakeDelimiter, TakeContent, CapFor;
    if p < |t| {
      var end := LineStop(t, p);
      var line := LineOf(t, p, end, CapFor(c));
      NextLine(c, t, ls, p);
      match LineDelimiter(c, line) {
        case Some(d) => DelimiterHeaders(c, d, line, t, ls, p, end, read);
        case None => ContentHeaders(c, line, t, p, end, read);
      }
      ProcessLineKeeps(c, t, ls, p, read);
      ScanHeaders(ProcessLine(c, line, read), t, p, end, read);
    }
  }

  lemma {:induction false} CloseAllHeaders(nodes: seq<Node>, stack: seq<Frame>, t: string, read: HeaderReader)
    requires (forall f :: f in stack ==> f.node < |nodes|) && AllHeaders(nodes, t) && TopOk(nodes, stack, t, |t|)
    requires forall i :: 0 <= i < |stack| - 1 ==> stack[i].inBody
    ensures AllHeaders(CloseAll(nodes, stack, |t|, read), t)
    decreases |stack|
  {
    hide EndHeadersAt;
    if stack != [] {
      var f, rest := stack[|stack| - 1], stack[..|stack| - 1];
      if !f.inBody { EndHeadersKeeps(nodes, f, |t|, t, |t|, read); }
      var r := CloseAtEnd(nodes, f, |t|, read);
      if rest != [] { assert rest[|rest| - 1] == stack[|rest| - 1] && rest[|rest| - 1] in stack; }
      CloseAllHeaders(r, rest, t, read);
    }
  }

  /** In every scanned structure, every header block not cut short is the header octets of its part. */
  lemma HeaderBlocksExact(t: string, read: HeaderReader)
    ensures AllHeaders(Structure(t, read), t)
  {
    hide ScanFrom, CloseAll, Inv;
    StartOk(t, read);
    assert t[0..0] == "";
    ScanHeaders(Start(read), t, 0, 0, read);
    var c := ScanFrom(Start(read), t, 0, read);
    var last := ScanKeeps(Start(read), t, 0, 0, read);
    BelowTopInBody(c, t, last);
    CloseAllHeaders(c.nodes, c.stack, t, read);
  }

  lemma BelowTopInBody(c: Core, t: string, ls: nat)
    requires CoreInv(c, t, ls, |t|)
    ensures forall i :: 0 <= i < |c.stack| - 1 ==> c.stack[i].inBody
  {
  }
}
