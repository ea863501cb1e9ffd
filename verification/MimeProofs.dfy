/** What every scanned structure satisfies, for every message and every reading of its headers. */
module MimeProofs {
  import opened Sets
  import opened MimeScan

  // --- counting lines ---------------------------------------------------------------------------

  ghost function LineFeeds(t: string, a: nat, b: nat): (n: nat)
    requires a <= b <= |t|
    decreases b - a
  {
    if a == b then 0 else LineFeeds(t, a, b - 1) + (if t[b - 1] == '\n' then 1 else 0)
  }

  /** The lines of the octets from a to b: their line feeds, and one for a last line without one. */
  ghost function Lines(t: string, a: nat, b: nat): (n: nat)
    requires a <= b <= |t|
  {
    LineFeeds(t, a, b) + (if a < b && t[b - 1] != '\n' then 1 else 0)
  }

  /** The line from ls to p, the last one read: it starts the text or follows an LF, and holds none but at its end. */
  ghost predicate IsLine(t: string, ls: nat, p: nat) {
    && ls <= p <= |t|
    && (forall i :: ls <= i < p - 1 ==> t[i] != '\n')
    && (ls == 0 || t[ls - 1] == '\n')
    && (0 < p < |t| ==> t[p - 1] == '\n')
    && (ls == p ==> p == 0)
  }

  lemma {:induction false} NoLineFeeds(t: string, a: nat, m: nat, b: nat)
    requires a <= m <= b <= |t| && forall i :: m <= i < b ==> t[i] != '\n'
    ensures LineFeeds(t, a, b) == LineFeeds(t, a, m)
    decreases b - m
  {
    if m < b { NoLineFeeds(t, a, m, b - 1); }
  }

  /** A body that runs up to a line counts that line once more. */
  lemma OneMoreLine(t: string, a: nat, p: nat, end: nat)
    requires a <= p < end <= |t| && IsLine(t, p, end)
    ensures Lines(t, a, end) == Lines(t, a, p) + 1
  {
    NoLineFeeds(t, a, p, end - 1);
  }

  /** Without the break of its last line, a body has that line only if something is on it. */
  lemma WithoutLastBreak(t: string, a: nat, ls: nat, p: nat)
    requires a <= ls < p <= |t| && IsLine(t, ls, p) && BreakLen(t, ls, p) > 0
    ensures var q := p - BreakLen(t, ls, p);
            a <= q && Lines(t, a, q) == Lines(t, a, p) - 1 + (if q > ls then 1 else 0)
  {
    var q := p - BreakLen(t, ls, p);
    NoLineFeeds(t, a, ls, q);
    NoLineFeeds(t, a, ls, p - 1);
  }

  // --- the invariant ----------------------------------------------------------------------------

  ghost predicate IsOpen(stack: seq<Frame>, k: Id) { exists i :: 0 <= i < |stack| && stack[i].node == k }

  /** A closed part: its offsets are in order and inside the text, and its lines are those of its body. */
  ghost predicate Sound(n: Node, t: string, p: nat) {
    n.headerStart <= n.bodyStart <= n.bodyEnd <= p <= |t| && n.lines == Lines(t, n.bodyStart, n.bodyEnd)
  }

  /** An open part. In its body, every line read since the body started has been counted. */
  ghost predicate FrameOk(n: Node, f: Frame, t: string, ls: nat, p: nat)
    requires ls <= p <= |t|
  {
    && (n.headerStart <= ls || n.headerStart == p)
    && (f.inBody ==> n.headerStart <= n.bodyStart <= p && f.lineCount == Lines(t, n.bodyStart, p))
    && (f.inBody && f.lineCount == 0 ==> n.bodyStart == p)
    && (f.inBody && f.lineCount > 0 ==> n.bodyStart <= ls < p)
    && (f.inBody && f.lineCount > 0 && BreakLen(t, ls, p) > 0 ==> f.lastLen == p - BreakLen(t, ls, p) - ls)
    && (!f.inBody ==> f.lineCount == 0 && n.message == None && n.children == [] && n.kind == Leaf)
  }

  ghost predicate StackOk(nodes: seq<Node>, stack: seq<Frame>) {
    && |stack| > 0
    && (forall i :: 0 <= i < |stack| ==> stack[i].node < |nodes| && nodes[stack[i].node].depth == i)
    && (forall i, j :: 0 <= i < j < |stack| ==> stack[i].node < stack[j].node)
    && (forall i :: 0 <= i < |stack| - 1 ==> stack[i].inBody)
  }

  /** The parts directly below a node: the parts of a multipart, or the one message enclosed. */
  function Below(n: Node): (s: seq<Id>) {
    if n.message.Some? then [n.message.value] else n.children
  }

  /**
   A part ends within its parent, or within what was read while that is open; an empty one, at most a line
   break past it.
  */
  ghost predicate Nested(nodes: seq<Node>, stack: seq<Frame>, q: int, k: Id, id: Id)
    requires k < |nodes| && id < |nodes|
  {
    IsOpen(stack, id) || EndsBy(nodes[id], if IsOpen(stack, k) then q else nodes[k].bodyEnd)
  }

  ghost predicate EndsBy(n: Node, end: int) { n.bodyEnd <= end || n.bodyStart == n.bodyEnd <= end + 2 }

  ghost predicate KidOk(nodes: seq<Node>, stack: seq<Frame>, q: int, k: Id, i: nat)
    requires k < |nodes| && i < |Below(nodes[k])|
  {
    var below := Below(nodes[k]);
    var id := below[i];
    && k < id < |nodes|
    && nodes[id].depth == nodes[k].depth + 1
    && nodes[k].bodyStart <= nodes[id].headerStart
    && (IsOpen(stack, id) ==> IsOpen(stack, k))
    && Nested(nodes, stack, q, k, id)
    && (i + 1 < |below| ==>
          id < below[i + 1] < |nodes| && !IsOpen(stack, id)
          && nodes[id].bodyEnd <= nodes[below[i + 1]].headerStart)
  }

  ghost predicate NodeOk(nodes: seq<Node>, stack: seq<Frame>, t: string, p: nat, k: Id)
    requires k < |nodes|
  {
    nodes[k].depth < MAX_DEPTH && KindOk(nodes[k]) && (IsOpen(stack, k) || Sound(nodes[k], t, p))
  }

  ghost predicate Tree(nodes: seq<Node>, stack: seq<Frame>, t: string, q: int, p: nat) {
    && |nodes| <= MAX_PARTS
    && (forall k :: 0 <= k < |nodes| ==> NodeOk(nodes, stack, t, p, k))
    && (forall k, i :: 0 <= k < |nodes| && 0 <= i < |Below(nodes[k])| ==> KidOk(nodes, stack, q, k, i))
  }

  /** The text up to p is read, the line from ls on last. */
  ghost predicate Inv(nodes: seq<Node>, stack: seq<Frame>, t: string, ls: nat, p: nat) {
    && IsLine(t, ls, p)
    && StackOk(nodes, stack)
    && (forall i :: 0 <= i < |stack| ==> FrameOk(nodes[stack[i].node], stack[i], t, ls, p))
    && Tree(nodes, stack, t, p - BreakLen(t, ls, p), p)
  }

  // --- closing the innermost part ---------------------------------------------------------------

  lemma FinishShape(nodes: seq<Node>, f: Frame, at: nat, read: HeaderReader)
    requires f.node < |nodes| && nodes[f.node].message == None
    ensures var r := FinishHeaders(nodes, f, at, read);
            && (forall k :: 0 <= k < |nodes| && k != f.node ==> r.nodes[k] == nodes[k])
            && SameSpan(r.nodes[f.node], nodes[f.node])
            && r.nodes[f.node].children == nodes[f.node].children
            && r.nodes[f.node].message == (if r.inner.Some? then Some(|nodes|) else None)
            && (r.inner.Some? ==> r.nodes[|nodes|] == NewNode(at, nodes[f.node].depth + 1, false, read))
            && (r.inner.Some? ==> nodes[f.node].depth + 1 < MAX_DEPTH && |nodes| < MAX_PARTS)
            && (nodes[f.node].kind == Leaf ==> KindOk(r.nodes[f.node]))
  {
  }

  /** A multipart encloses no message. */
  ghost predicate KindOk(n: Node) { n.kind == Multipart ==> n.message == None }

  ghost predicate SameSpan(a: Node, b: Node) {
    a.headerStart == b.headerStart && a.bodyStart == b.bodyStart && a.bodyEnd == b.bodyEnd && a.lines == b.lines
      && a.depth == b.depth
  }

  /** A part closed in its header block has no body, and neither has a message it encloses. */
  lemma EndHeadersShape(nodes: seq<Node>, f: Frame, end: nat, read: HeaderReader)
    requires f.node < |nodes| && nodes[f.node].message == None && nodes[f.node].children == []
             && nodes[f.node].kind == Leaf
    ensures var r := EndHeadersAt(nodes, f, end, read);
            && (forall k :: 0 <= k < |nodes| && k != f.node ==> r[k] == nodes[k])
            && SameSpan(r[f.node], nodes[f.node].(bodyStart := end))
            && |r| <= |nodes| + 1
            && KindOk(r[f.node])
            && Below(r[f.node]) == (if |r| > |nodes| then [|nodes|] else [])
            && (|r| > |nodes| ==>
                  NewClosed(r[|nodes|], end, nodes[f.node].depth + 1) && |r| <= MAX_PARTS
                  && nodes[f.node].depth + 1 < MAX_DEPTH)
  {
    FinishShape(nodes[f.node := nodes[f.node].(bodyStart := end)], f, end, read);
  }

  ghost predicate NewClosed(n: Node, end: nat, depth: nat) {
    n.headerStart == n.bodyStart == n.bodyEnd == end && n.lines == 0 && n.depth == depth && n.children == []
      && n.message == None && n.kind == Leaf
  }

  /** How one part changes when it closes with its body ending at `end`, and nothing else does. */
  ghost predicate ClosedBy(nodes: seq<Node>, f: Frame, r: seq<Node>, bodyEnd: nat)
    requires f.node < |nodes|
  {
    && |nodes| <= |r| <= |nodes| + 1
    && (forall k :: 0 <= k < |nodes| && k != f.node ==> r[k] == nodes[k])
    && r[f.node].headerStart == nodes[f.node].headerStart
    && r[f.node].bodyEnd == bodyEnd
    && r[f.node].depth == nodes[f.node].depth
    && (KindOk(nodes[f.node]) ==> KindOk(r[f.node]))
    && (f.inBody ==>
          |r| == |nodes| && r[f.node].bodyStart == nodes[f.node].bodyStart
          && Below(r[f.node]) == Below(nodes[f.node]))
    && (!f.inBody ==> r[f.node].bodyStart == bodyEnd && Below(r[f.node]) == (if |r| > |nodes| then [|nodes|] else []))
    && (|r| > |nodes| ==>
          NewClosed(r[|nodes|], bodyEnd, nodes[f.node].depth + 1) && |r| <= MAX_PARTS
          && nodes[f.node].depth + 1 < MAX_DEPTH)
  }

  lemma CloseFrameShape(nodes: seq<Node>, f: Frame, t: string, ls: nat, p: nat, read: HeaderReader)
    requires f.node < |nodes| && IsLine(t, ls, p) && FrameOk(nodes[f.node], f, t, ls, p) && (p > 0 ==> t[p - 1] == '\n')
    ensures var r := CloseFrame(nodes, f, p, BreakLen(t, ls, p), read);
            var q := p - BreakLen(t, ls, p);
            && ClosedBy(nodes, f, r, r[f.node].bodyEnd)
            && Sound(r[f.node], t, p)
            && q <= r[f.node].bodyEnd && EndsBy(r[f.node], q)
  {
    hide EndHeadersAt;
    var n, q := nodes[f.node], p - BreakLen(t, ls, p);
    if !f.inBody {
      EndHeadersShape(nodes, f, Max(n.headerStart, q), read);
    } else {
      hide BreakLen;
      if f.lineCount > 0 { WithoutLastBreak(t, n.bodyStart, ls, p); }
    }
  }

  lemma PopOpen(stack: seq<Frame>, k: Id)
    requires |stack| > 0 && forall i, j :: 0 <= i < j < |stack| ==> stack[i].node < stack[j].node
    ensures IsOpen(stack[..|stack| - 1], k) <==> IsOpen(stack, k) && k != stack[|stack| - 1].node
  {
    var rest := stack[..|stack| - 1];
    if IsOpen(stack, k) && k != stack[|stack| - 1].node {
      var i :| 0 <= i < |stack| && stack[i].node == k;
      assert rest[i].node == k;
    }
    if IsOpen(rest, k) {
      var i :| 0 <= i < |rest| && rest[i].node == k;
      assert stack[i].node == k;
    }
  }

  /** The tree after its innermost open part closes, ending at or after q. */
  lemma CloseTree(nodes: seq<Node>, stack: seq<Frame>, t: string, q: int, p: nat, r: seq<Node>)
    requires StackOk(nodes, stack) && Tree(nodes, stack, t, q, p)
    requires var f := stack[|stack| - 1];
             && f.node < |r| && ClosedBy(nodes, f, r, r[f.node].bodyEnd)
             && Sound(r[f.node], t, p) && q <= r[f.node].bodyEnd && EndsBy(r[f.node], q)
    ensures Tree(r, stack[..|stack| - 1], t, q, p)
  {
    var rest, f := stack[..|stack| - 1], stack[|stack| - 1];
    forall k | 0 <= k < |r| ensures NodeOk(r, rest, t, p, k) {
      PopOpen(stack, k);
      if k < |nodes| { assert NodeOk(nodes, stack, t, p, k); } else { assert NodeOk(nodes, stack, t, p, f.node); }
    }
    forall k, i | 0 <= k < |r| && 0 <= i < |Below(r[k])| ensures KidOk(r, rest, q, k, i) {
      CloseTreeKid(nodes, stack, t, q, p, r, k, i);
    }
  }

  lemma TopIsLast(nodes: seq<Node>, stack: seq<Frame>, k: Id)
    requires StackOk(nodes, stack) && k > stack[|stack| - 1].node
    ensures !IsOpen(stack, k)
  {
  }

  lemma CloseTreeKid(nodes: seq<Node>, stack: seq<Frame>, t: string, q: int, p: nat, r: seq<Node>, k: Id, i: nat)
    requires StackOk(nodes, stack) && Tree(nodes, stack, t, q, p)
    requires var f := stack[|stack| - 1];
             && f.node < |r| && ClosedBy(nodes, f, r, r[f.node].bodyEnd)
             && Sound(r[f.node], t, p) && q <= r[f.node].bodyEnd && EndsBy(r[f.node], q)
    requires k < |r| && i < |Below(r[k])|
    ensures KidOk(r, stack[..|stack| - 1], q, k, i)
  {
    var f := stack[|stack| - 1];
    var id := Below(r[k])[i];
    PopOpen(stack, k);
    PopOpen(stack, id);
    if k == f.node && !f.inBody {
      TopIsLast(nodes, stack, id);
    } else if k < |nodes| {
      assert Below(r[k]) == Below(nodes[k]);
      assert KidOk(nodes, stack, q, k, i);
      assert IsOpen(stack, f.node);
      if k == f.node { TopIsLast(nodes, stack, id); }
      if i + 1 < |Below(r[k])| { PopOpen(stack, Below(r[k])[i + 1]); }
    }
  }

  lemma CloseTop(nodes: seq<Node>, stack: seq<Frame>, t: string, ls: nat, p: nat, read: HeaderReader)
    requires Inv(nodes, stack, t, ls, p) && |stack| > 1 && (p > 0 ==> t[p - 1] == '\n')
    ensures var r := CloseFrame(nodes, stack[|stack| - 1], p, BreakLen(t, ls, p), read);
            && Inv(r, stack[..|stack| - 1], t, ls, p)
            && (forall i :: 0 <= i < |stack| - 1 ==> r[stack[i].node] == nodes[stack[i].node])
  {
    hide CloseFrame, Tree, Sound, FrameOk, BreakLen;
    var rest, f := stack[..|stack| - 1], stack[|stack| - 1];
    var r := CloseFrame(nodes, f, p, BreakLen(t, ls, p), read);
    CloseFrameShape(nodes, f, t, ls, p, read);
    CloseTree(nodes, stack, t, p - BreakLen(t, ls, p), p, r);
    forall i | 0 <= i < |rest| ensures rest[i].node < |r| && r[rest[i].node] == nodes[stack[i].node] {
      assert stack[i].node < f.node;
    }
  }

  lemma {:induction false} CloseAboveKeeps(nodes: seq<Node>, stack: seq<Frame>, d: nat, t: string, ls: nat, p: nat,
          read: HeaderReader)
    requires Inv(nodes, stack, t, ls, p) && d < |stack| && (p > 0 ==> t[p - 1] == '\n')
    ensures (forall f :: f in stack ==> f.node < |nodes|)
    ensures var r := CloseAbove(nodes, stack, d, p, BreakLen(t, ls, p), read);
            Inv(r, stack[..d + 1], t, ls, p) && r[stack[d].node] == nodes[stack[d].node]
    decreases |stack|
  {
    hide CloseFrame, Tree, Sound, FrameOk, BreakLen;
    forall f | f in stack ensures f.node < |nodes| {
      var i :| 0 <= i < |stack| && stack[i] == f;
    }
    if |stack| == d + 1 {
      assert stack[..d + 1] == stack;
    } else {
      CloseTop(nodes, stack, t, ls, p, read);
      CloseAboveKeeps(CloseFrame(nodes, stack[|stack| - 1], p, BreakLen(t, ls, p), read), stack[..|stack| - 1], d, t,
        ls, p, read);
      assert stack[..|stack| - 1][..d + 1] == stack[..d + 1];
    }
  }

  // --- a line ------------------------------------------------------------------------------------

  ghost predicate SameNames(a: seq<Frame>, b: seq<Frame>) {
    |a| == |b| && forall i :: 0 <= i < |a| ==> a[i].node == b[i].node
  }

  lemma SameOpen(a: seq<Frame>, b: seq<Frame>, k: Id)
    requires SameNames(a, b)
    ensures IsOpen(a, k) <==> IsOpen(b, k)
  {
    if IsOpen(a, k) { var i :| 0 <= i < |a| && a[i].node == k; assert b[i].node == k; }
    if IsOpen(b, k) { var i :| 0 <= i < |b| && b[i].node == k; assert a[i].node == k; }
  }

  /** The tree stays good as more of the text is read. */
  lemma TreeLater(nodes: seq<Node>, stack: seq<Frame>, after: seq<Frame>, t: string, q: int, p: nat, q': int, p': nat)
    requires Tree(nodes, stack, t, q, p) && SameNames(stack, after) && q <= q' && p <= p' <= |t|
    ensures Tree(nodes, after, t, q', p')
  {
    forall k | 0 <= k < |nodes| ensures NodeOk(nodes, after, t, p', k) {
      SameOpen(stack, after, k);
      assert NodeOk(nodes, stack, t, p, k);
    }
    forall k, i | 0 <= k < |nodes| && 0 <= i < |Below(nodes[k])| ensures KidOk(nodes, after, q', k, i) {
      assert KidOk(nodes, stack, q, k, i);
      SameOpen(stack, after, k);
      SameOpen(stack, after, Below(nodes[k])[i]);
    }
  }

  lemma CountKeeps(n: Node, f: Frame, t: string, ls: nat, p: nat, end: nat)
    requires IsLine(t, ls, p) && IsLine(t, p, end) && p < end && FrameOk(n, f, t, ls, p)
    ensures var br := BreakLen(t, p, end);
            FrameOk(n, Count(f, br, end - p - br), t, p, end)
  {
    if f.inBody { OneMoreLine(t, n.bodyStart, p, end); }
  }

  /** Reading a line counts it in every open body. */
  lemma CountAllKeeps(nodes: seq<Node>, stack: seq<Frame>, t: string, ls: nat, p: nat, end: nat)
    requires Inv(nodes, stack, t, ls, p) && IsLine(t, p, end) && p < end
    ensures var br := BreakLen(t, p, end);
            Inv(nodes, CountAll(stack, br, end - p - br), t, p, end)
  {
    hide Tree, FrameOk;
    var br := BreakLen(t, p, end);
    var after := CountAll(stack, br, end - p - br);
    TreeLater(nodes, stack, after, t, p - BreakLen(t, ls, p), p, end - br, end);
    forall i | 0 <= i < |after| ensures FrameOk(nodes[after[i].node], after[i], t, p, end) {
      CountKeeps(nodes[stack[i].node], stack[i], t, ls, p, end);
    }
  }

  /** One new part, starting at p, below the node id; the rest of the tree is as it was. */
  ghost predicate OpenedBelow(nodes: seq<Node>, id: Id, r: seq<Node>, p: nat)
    requires id < |nodes|
  {
    && |r| == |nodes| + 1 <= MAX_PARTS
    && (forall k :: 0 <= k < |nodes| && k != id ==> r[k] == nodes[k])
    && r[id].headerStart == nodes[id].headerStart && r[id].bodyStart <= p
    && r[id].depth == nodes[id].depth && KindOk(r[id])
    && (r[id].bodyStart == nodes[id].bodyStart || Below(nodes[id]) == [])
    && Below(r[id]) == Below(nodes[id]) + [|nodes|]
    && r[|nodes|].headerStart == p && r[|nodes|].depth == nodes[id].depth + 1 < MAX_DEPTH
    && Below(r[|nodes|]) == [] && KindOk(r[|nodes|])
  }

  /** A part opens below the innermost one, after everything read. */
  lemma OpenTree(nodes: seq<Node>, stack: seq<Frame>, t: string, q: int, p: nat, r: seq<Node>, f: Frame)
    requires StackOk(nodes, stack) && Tree(nodes, stack, t, q, p) && p <= |t|
    requires f.node == |nodes| && OpenedBelow(nodes, stack[|stack| - 1].node, r, p)
    ensures Tree(r, stack + [f], t, q, p)
  {
    var after, id := stack + [f], stack[|stack| - 1].node;
    forall k | 0 <= k < |r| ensures NodeOk(r, after, t, p, k) {
      PushOpen(stack, f, k);
      if k < |nodes| { assert NodeOk(nodes, stack, t, p, k); }
      assert stack[|stack| - 1].node == id;
    }
    forall k, i | 0 <= k < |r| && 0 <= i < |Below(r[k])| ensures KidOk(r, after, q, k, i) {
      OpenTreeKid(nodes, stack, t, q, p, r, f, k, i);
    }
  }

  lemma PushOpen(stack: seq<Frame>, f: Frame, k: Id)
    ensures IsOpen(stack + [f], k) <==> IsOpen(stack, k) || k == f.node
  {
    var after := stack + [f];
    assert after[|stack|] == f;
    if IsOpen(stack, k) { var i :| 0 <= i < |stack| && stack[i].node == k; assert after[i].node == k; }
  }

  lemma OpenTreeKid(nodes: seq<Node>, stack: seq<Frame>, t: string, q: int, p: nat, r: seq<Node>, f: Frame, k: Id,
          i: nat)
    requires StackOk(nodes, stack) && Tree(nodes, stack, t, q, p) && p <= |t|
    requires f.node == |nodes| && OpenedBelow(nodes, stack[|stack| - 1].node, r, p)
    requires k < |r| && i < |Below(r[k])|
    ensures KidOk(r, stack + [f], q, k, i)
  {
    var top := stack[|stack| - 1].node;
    var id := Below(r[k])[i];
    PushOpen(stack, f, k);
    PushOpen(stack, f, id);
    assert IsOpen(stack, top);
    if k == top && i == |Below(nodes[k])| {
      assert id == |nodes|;
    } else {
      assert KidOk(nodes, stack, q, k, i);
      assert id != top || k < top;
      if k == top {
        TopIsLast(nodes, stack, id);
        assert NodeOk(nodes, stack, t, p, id);
      }
    }
  }

  /** A header block ends at p: the innermost part is in its body, and may enclose a message that starts there. */
  lemma FinishTop(nodes: seq<Node>, stack: seq<Frame>, t: string, ls: nat, p: nat, read: HeaderReader)
    requires Inv(nodes, stack, t, ls, p) && !stack[|stack| - 1].inBody
    ensures var k := |stack| - 1;
            var f := stack[k];
            var after := FinishHeaders(nodes[f.node := nodes[f.node].(bodyStart := p)], f, p, read);
            var own := stack[k := f.(inBody := true, block := "")];
            Inv(after.nodes, if after.inner.Some? then own + [after.inner.value] else own, t, ls, p)
  {
    hide FinishHeaders, Tree, FrameOk, BreakLen;
    var k := |stack| - 1;
    var f := stack[k];
    var q := p - BreakLen(t, ls, p);
    var started := nodes[f.node := nodes[f.node].(bodyStart := p)];
    var after := FinishHeaders(started, f, p, read);
    var own := stack[k := f.(inBody := true, block := "")];
    HeaderFrame(nodes[f.node], f, t, ls, p);
    FinishShape(started, f, p, read);
    forall i | 0 <= i < k ensures after.nodes[stack[i].node] == nodes[stack[i].node] {
      assert stack[i].node < f.node;
    }
    EmptyBody(after.nodes[f.node], own[k], t, ls, p);
    if after.inner.Some? {
      var g := after.inner.value;
      OpenTree(nodes, stack, t, q, p, after.nodes, g);
      TreeLater(after.nodes, stack + [g], own + [g], t, q, p, q, p);
      InnerFrame(after.nodes[g.node], g, t, ls, p, read);
    } else {
      TreeSameBelow(nodes, stack, t, q, p, after.nodes, f.node);
      TreeLater(after.nodes, stack, own, t, q, p, q, p);
    }
  }

  lemma HeaderFrame(n: Node, f: Frame, t: string, ls: nat, p: nat)
    requires ls <= p <= |t| && FrameOk(n, f, t, ls, p) && !f.inBody
    ensures (n.headerStart <= ls || n.headerStart == p) && f.lineCount == 0 && Below(n) == [] && n.message == None
            && n.children == [] && n.kind == Leaf
  {
  }

  lemma EmptyBody(n: Node, f: Frame, t: string, ls: nat, p: nat)
    requires ls <= p <= |t| && (n.headerStart <= ls || n.headerStart == p) && n.bodyStart == p && f.inBody
             && f.lineCount == 0
    ensures FrameOk(n, f, t, ls, p)
  {
  }

  lemma InnerFrame(n: Node, f: Frame, t: string, ls: nat, p: nat, read: HeaderReader)
    requires ls <= p <= |t| && n == NewNode(p, n.depth, f.inDigest, read) && f == NewFrame(f.node, f.inDigest)
    ensures FrameOk(n, f, t, ls, p)
  {
  }

  /** The tree is as good when an open node with nothing below it changes. */
  lemma TreeSameBelow(nodes: seq<Node>, stack: seq<Frame>, t: string, q: int, p: nat, r: seq<Node>, id: Id)
    requires Tree(nodes, stack, t, q, p) && IsOpen(stack, id) && id < |nodes| == |r|
    requires forall k :: 0 <= k < |nodes| && k != id ==> r[k] == nodes[k]
    requires r[id].headerStart == nodes[id].headerStart && r[id].depth == nodes[id].depth && KindOk(r[id])
    requires Below(r[id]) == Below(nodes[id]) && (Below(nodes[id]) == [] || r[id].bodyStart == nodes[id].bodyStart)
    ensures Tree(r, stack, t, q, p)
  {
    forall k | 0 <= k < |r| ensures NodeOk(r, stack, t, p, k) {
      assert NodeOk(nodes, stack, t, p, k);
    }
    forall k, i | 0 <= k < |r| && 0 <= i < |Below(r[k])| ensures KidOk(r, stack, q, k, i) {
      assert KidOk(nodes, stack, q, k, i);
    }
  }

  lemma OpenChildKeeps(nodes: seq<Node>, stack: seq<Frame>, budget: int, line: LineSeen, t: string, ls: nat,
          read: HeaderReader)
    requires Inv(nodes, stack, t, ls, line.end) && stack[|stack| - 1].inBody
    requires nodes[stack[|stack| - 1].node].kind == Multipart
    requires forall f :: f in stack ==> f.node < |nodes|
    ensures var r := OpenChild(nodes, stack, budget, line, read);
            Inv(r.nodes, r.stack, t, ls, line.end)
  {
    hide Tree, FrameOk, BreakLen;
    var r := OpenChild(nodes, stack, budget, line, read);
    if |r.nodes| > |nodes| {
      var f := stack[|stack| - 1];
      var n, g, p := nodes[f.node], NewFrame(|nodes|, nodes[f.node].info.digest), line.end;
      MultipartNode(nodes, stack, t, p - BreakLen(t, ls, p), p, f.node);
      BodyStarted(n, f, t, ls, p);
      OpenTree(nodes, stack, t, p - BreakLen(t, ls, p), p, r.nodes, g);
      InnerFrame(r.nodes[|nodes|], g, t, ls, p, read);
      forall i | 0 <= i < |stack| ensures FrameOk(r.nodes[stack[i].node], stack[i], t, ls, p) {
        assert FrameOk(nodes[stack[i].node], stack[i], t, ls, p);
        if i == |stack| - 1 { MoreChildren(n, f, n.children + [|nodes|], t, ls, p); }
          else { assert stack[i].node < f.node; }
      }
    }
  }

  lemma MultipartNode(nodes: seq<Node>, stack: seq<Frame>, t: string, q: int, p: nat, k: Id)
    requires Tree(nodes, stack, t, q, p) && k < |nodes| && nodes[k].kind == Multipart
    ensures nodes[k].message == None
  {
    assert NodeOk(nodes, stack, t, p, k);
  }

  lemma BodyStarted(n: Node, f: Frame, t: string, ls: nat, p: nat)
    requires ls <= p <= |t| && FrameOk(n, f, t, ls, p) && f.inBody
    ensures n.bodyStart <= p
  {
  }

  lemma MoreChildren(n: Node, f: Frame, children: seq<Id>, t: string, ls: nat, p: nat)
    requires ls <= p <= |t| && FrameOk(n, f, t, ls, p) && f.inBody
    ensures FrameOk(n.(children := children), f, t, ls, p)
  {
  }

  ghost predicate CoreInv(c: Core, t: string, ls: nat, p: nat) {
    Inv(c.nodes, c.stack, t, ls, p) && c.prevBreak == BreakLen(t, ls, p)
  }

  lemma InvNames(c: Core, t: string, ls: nat, p: nat)
    requires CoreInv(c, t, ls, p)
    ensures StackNames(c)
  {
    forall f | f in c.stack ensures f.node < |c.nodes| {
      var i :| 0 <= i < |c.stack| && c.stack[i] == f;
    }
  }

  lemma PhaseKeeps(nodes: seq<Node>, stack: seq<Frame>, phase: Phase, t: string, ls: nat, p: nat)
    requires Inv(nodes, stack, t, ls, p)
    ensures var k := |stack| - 1;
            Inv(nodes, stack[k := stack[k].(phase := phase)], t, ls, p)
  {
    hide Tree, BreakLen;
    var k, q := |stack| - 1, p - BreakLen(t, ls, p);
    TreeLater(nodes, stack, stack[k := stack[k].(phase := phase)], t, q, p, q, p);
  }

  lemma DelimiterKeeps(c: Core, d: nat, line: LineSeen, t: string, ls: nat, p: nat, end: nat, read: HeaderReader)
    requires CoreInv(c, t, ls, p) && IsLine(t, p, end) && p < end && StackNames(c) && d < |c.stack|
    requires line.start == p && line.end == end && line.brLen == BreakLen(t, p, end) && line.Ok() && line.Complete()
    requires DelimiterOf(c.nodes, c.stack[d], line.raw[..line.ContentLen()]) != NotDelimiter
    ensures CoreInv(TakeDelimiter(c, d, line, read), t, p, end)
  {
    hide Inv, OpenChild, BreakLen, CloseAbove, CountAll;
    LineFeedBefore(c, t, ls, p);
    CloseAboveKeeps(c.nodes, c.stack, d, t, ls, p, read);
    var nodes := CloseAbove(c.nodes, c.stack, d, p, c.prevBreak, read);
    CountAllKeeps(nodes, c.stack[..d + 1], t, ls, p, end);
    var stack := CountAll(c.stack[..d + 1], line.brLen, line.ContentLen());
    PhaseKeeps(nodes, stack, Epilogue, t, p, end);
    PhaseKeeps(nodes, stack, Parts, t, p, end);
    var parts := stack[d := stack[d].(phase := Parts)];
    assert parts[d].node == c.stack[d].node && parts[d].inBody;
    InvNames(Core(nodes, parts, c.budget, line.brLen), t, p, end);
    OpenChildKeeps(nodes, parts, c.budget, line, t, p, read);
    assert OpenChild(nodes, parts, c.budget, line, read).prevBreak
      == line.brLen by { OpenChildBreak(nodes, parts, c.budget, line, read); }
  }

  lemma OpenChildBreak(nodes: seq<Node>, stack: seq<Frame>, budget: int, line: LineSeen, read: HeaderReader)
    requires |stack| > 0 && forall f :: f in stack ==> f.node < |nodes|
    ensures OpenChild(nodes, stack, budget, line, read).prevBreak == line.brLen
  {
  }

  lemma LineFeedBefore(c: Core, t: string, ls: nat, p: nat)
    requires CoreInv(c, t, ls, p) && p < |t|
    ensures p > 0 ==> t[p - 1] == '\n'
  {
  }

  lemma ContentKeeps(c: Core, line: LineSeen, t: string, ls: nat, p: nat, end: nat, read: HeaderReader)
    requires CoreInv(c, t, ls, p) && IsLine(t, p, end) && p < end && StackNames(c)
    requires line.start == p && line.end == end && line.brLen == BreakLen(t, p, end) && line.Ok()
    ensures CoreInv(TakeContent(c, line, read), t, p, end)
  {
    hide BreakLen, FinishHeaders, Inv, Count;
    CountAllKeeps(c.nodes, c.stack, t, ls, p, end);
    var stack := CountAll(c.stack, line.brLen, line.ContentLen());
    var f := stack[|stack| - 1];
    if !f.inBody {
      if line.ContentLen() == 0 && line.brLen > 0 {
        FinishTop(c.nodes, stack, t, p, end, read);
      } else {
        HeaderLine(c.nodes, stack, t, p, end, line.raw);
      }
    }
  }

  /** A header line is kept, or the part marked as cut short; its place in the tree does not change. */
  lemma HeaderLine(nodes: seq<Node>, stack: seq<Frame>, t: string, ls: nat, p: nat, raw: string)
    requires Inv(nodes, stack, t, ls, p) && !stack[|stack| - 1].inBody
    ensures var k := |stack| - 1;
            var f := stack[k];
            && Inv(nodes[f.node := nodes[f.node].(headersTruncated := true)], stack, t, ls, p)
            && Inv(nodes, stack[k := f.(block := f.block + raw)], t, ls, p)
  {
    hide Tree, BreakLen;
    var k, q := |stack| - 1, p - BreakLen(t, ls, p);
    var f := stack[k];
    TreeLater(nodes, stack, stack[k := f.(block := f.block + raw)], t, q, p, q, p);
    MultipartFree(nodes, stack, t, q, p, f.node);
    TreeSameBelow(nodes, stack, t, q, p, nodes[f.node := nodes[f.node].(headersTruncated := true)], f.node);
    forall i | 0 <= i < k ensures stack[i].node != f.node {
      assert stack[i].node < f.node;
    }
  }

  lemma MultipartFree(nodes: seq<Node>, stack: seq<Frame>, t: string, q: int, p: nat, k: Id)
    requires Tree(nodes, stack, t, q, p) && k < |nodes|
    ensures KindOk(nodes[k])
  {
    assert NodeOk(nodes, stack, t, p, k);
  }

  lemma ProcessLineKeeps(c: Core, t: string, ls: nat, p: nat, read: HeaderReader)
    requires CoreInv(c, t, ls, p) && StackNames(c) && p < |t|
    ensures var end := LineStop(t, p);
            CoreInv(ProcessLine(c, LineOf(t, p, end, CapFor(c)), read), t, p, end)
  {
    hide CoreInv, TakeDelimiter, TakeContent, LineStop, CapFor;
    var end := LineStop(t, p);
    var line := LineOf(t, p, end, CapFor(c));
    NextLine(c, t, ls, p);
    match LineDelimiter(c, line)
    case Some(d) => DelimiterKeeps(c, d, line, t, ls, p, end, read);
    case None => ContentKeeps(c, line, t, ls, p, end, read);
  }

  lemma NextLine(c: Core, t: string, ls: nat, p: nat)
    requires CoreInv(c, t, ls, p) && p < |t|
    ensures IsLine(t, p, LineStop(t, p))
  {
  }

  lemma {:induction false} ScanKeeps(c: Core, t: string, ls: nat, p: nat, read: HeaderReader) returns (last: nat)
    requires CoreInv(c, t, ls, p) && StackNames(c) && p <= |t|
    ensures CoreInv(ScanFrom(c, t, p, read), t, last, |t|)
    decreases |t| - p
  {
    hide CoreInv, ProcessLine;
    if p < |t| {
      ProcessLineKeeps(c, t, ls, p, read);
      last := ScanKeeps(ProcessLine(c, LineOf(t, p, LineStop(t, p), CapFor(c)), read), t, p, LineStop(t, p), read);
    } else {
      last := ls;
    }
  }

  lemma StartOk(t: string, read: HeaderReader)
    ensures CoreInv(Start(read), t, 0, 0) && StackNames(Start(read))
  {
    var c := Start(read);
    assert c.stack[0].node == 0;
    assert IsOpen(c.stack, 0);
    forall k | 0 <= k < |c.nodes| ensures NodeOk(c.nodes, c.stack, t, 0, k) {
      assert k == 0;
    }
  }

  // --- the end of the message -------------------------------------------------------------------

  lemma CloseEndShape(nodes: seq<Node>, f: Frame, t: string, ls: nat, read: HeaderReader)
    requires f.node < |nodes| && ls <= |t| && FrameOk(nodes[f.node], f, t, ls, |t|)
    ensures var r := CloseAtEnd(nodes, f, |t|, read);
            ClosedBy(nodes, f, r, |t|) && Sound(r[f.node], t, |t|)
  {
    hide EndHeadersAt;
    if !f.inBody { EndHeadersShape(nodes, f, |t|, read); }
  }

  lemma {:induction false} CloseAllKeeps(nodes: seq<Node>, stack: seq<Frame>, t: string, ls: nat, read: HeaderReader)
    requires ls <= |t| && Tree(nodes, stack, t, |t|, |t|) && (stack == [] || StackOk(nodes, stack))
    requires forall i :: 0 <= i < |stack| ==>
             stack[i].node < |nodes| && FrameOk(nodes[stack[i].node], stack[i], t, ls, |t|)
    ensures forall f :: f in stack ==> f.node < |nodes|
    ensures Tree(CloseAll(nodes, stack, |t|, read), [], t, |t|, |t|)
    decreases |stack|
  {
    hide Tree, FrameOk, CloseAtEnd, Sound;
    forall f | f in stack ensures f.node < |nodes| {
      var i :| 0 <= i < |stack| && stack[i] == f;
    }
    if stack != [] {
      var rest, f := stack[..|stack| - 1], stack[|stack| - 1];
      var r := CloseAtEnd(nodes, f, |t|, read);
      CloseEndShape(nodes, f, t, ls, read);
      CloseTree(nodes, stack, t, |t|, |t|, r);
      forall i | 0 <= i < |rest| ensures rest[i].node < |r| && r[rest[i].node] == nodes[stack[i].node] {
        assert stack[i].node < f.node;
      }
      CloseAllKeeps(r, rest, t, ls, read);
    }
  }

  /** The part id below the node k, in place i. */
  ghost predicate WellPlaced(nodes: seq<Node>, k: Id, i: nat)
    requires k < |nodes| && i < |Below(nodes[k])|
  {
    var below := Below(nodes[k]);
    var id := below[i];
    && k < id < |nodes|
    && nodes[id].depth == nodes[k].depth + 1
    && nodes[k].bodyStart <= nodes[id].headerStart
    && EndsBy(nodes[id], nodes[k].bodyEnd)
    && (i + 1 < |below| ==> id < below[i + 1] < |nodes| && nodes[id].bodyEnd <= nodes[below[i + 1]].headerStart)
  }

  /**
   For every message and every reading of header blocks: every part's offsets are in order and inside
   the message, its lines are the lines of its body, parts start inside their parent, come one after
   the other without overlap, and end within their parent, or with an empty body at most two octets past
   it; and there are no more parts, nor deeper ones, than the limits allow.
  */
  lemma StructureSound(t: string, read: HeaderReader)
    ensures var nodes := Structure(t, read);
            && 1 <= |nodes| <= MAX_PARTS
            && (forall k :: 0 <= k < |nodes| ==>
               nodes[k].depth < MAX_DEPTH && KindOk(nodes[k]) && Sound(nodes[k], t, |t|))
            && (forall k, i :: 0 <= k < |nodes| && 0 <= i < |Below(nodes[k])| ==> WellPlaced(nodes, k, i))
  {
    hide ScanFrom, CloseAll;
    StartOk(t, read);
    var ls := ScanKeeps(Start(read), t, 0, 0, read);
    var c := ScanFrom(Start(read), t, 0, read);
    InvInside(c, t, ls, |t|);
    TreeLater(c.nodes, c.stack, c.stack, t, |t| - BreakLen(t, ls, |t|), |t|, |t|, |t|);
    CloseAllKeeps(c.nodes, c.stack, t, ls, read);
    assert c.stack[0] in c.stack;
    TreeMeans(Structure(t, read), t);
  }

  lemma TreeMeans(nodes: seq<Node>, t: string)
    requires Tree(nodes, [], t, |t|, |t|)
    ensures |nodes| <= MAX_PARTS
    ensures forall k :: 0 <= k < |nodes| ==> nodes[k].depth < MAX_DEPTH && KindOk(nodes[k]) && Sound(nodes[k], t, |t|)
    ensures forall k, i :: 0 <= k < |nodes| && 0 <= i < |Below(nodes[k])| ==> WellPlaced(nodes, k, i)
  {
    forall k | 0 <= k < |nodes| ensures nodes[k].depth < MAX_DEPTH && KindOk(nodes[k]) && Sound(nodes[k], t, |t|) {
      assert NodeOk(nodes, [], t, |t|, k);
    }
    forall k, i | 0 <= k < |nodes| && 0 <= i < |Below(nodes[k])| ensures WellPlaced(nodes, k, i) {
      assert KidOk(nodes, [], |t|, k, i);
    }
  }

  lemma InvInside(c: Core, t: string, ls: nat, p: nat)
    requires CoreInv(c, t, ls, p)
    ensures ls <= p <= |t|
  {
  }
}
