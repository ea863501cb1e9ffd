/**
 Scanning undoes composing: a message put together from entities, multiparts and enclosed messages inside
 one another to any depth, is taken apart into those entities (section 5.1.1 of RFC 2046). Every line is
 given with its break, so CRLF and bare LF may be mixed, and delimiter lines may be padded with blanks.
*/
module MimeCompose {
  import opened Sets
  import opened MimeScan
  import opened MimeStream
  import MimeProofs
  import opened MimeLines

  /** `blank`: the empty line after the headers. `delimiters`: one line before each part, and the closing one. */
  datatype Entity =
    | Plain(headers: seq<string>, blank: string, body: seq<string>)
    | Multi(headers: seq<string>, blank: string, preamble: seq<string>, boundary: string, delimiters: seq<string>,
        parts: seq<Entity>, epilogue: seq<string>)
    | Enclosing(headers: seq<string>, blank: string, message: Entity)
  {
    function Width(): (n: nat) { if Multi? then |parts| else 0 }

    function Delimiter(j: nat): (s: string) { if Multi? && j < |delimiters| then delimiters[j] else "" }
  }

  function Head(e: Entity): (t: string) { Text(e.headers) + e.blank }

  function Compose(e: Entity): (t: string)
    decreases e, e.Width() + 2
  {
    Head(e) + Body(e)
  }

  function Body(e: Entity): (t: string)
    decreases e, e.Width() + 1
  {
    match e
    case Plain(_, _, body) => Text(body)
    case Multi(_, _, preamble, _, _, _, epilogue) => Text(preamble) + PartsText(e, 0) + Text(epilogue)
    case Enclosing(_, _, message) => Compose(message)
  }

  /** From part j on: a delimiter and the part it opens, for each; the closing delimiter at the end. */
  function PartsText(e: Entity, j: nat): (t: string)
    requires e.Multi? && j <= |e.parts|
    decreases e, |e.parts| - j
  {
    if j == |e.parts| then e.Delimiter(j)
    else e.Delimiter(j) + Compose(e.parts[j]) + PartsText(e, j + 1)
  }

  /** The nodes of an entity: itself, and those inside it. */
  function Size(e: Entity): (n: nat)
    ensures n >= 1
    decreases e, e.Width() + 1
  {
    match e
    case Plain(_, _, _) => 1
    case Multi(_, _, _, _, _, parts, _) => SizeUpTo(e, |parts|)
    case Enclosing(_, _, message) => 1 + Size(message)
  }

  function SizeUpTo(e: Entity, j: nat): (n: nat)
    requires e.Multi? && j <= |e.parts|
    ensures n >= 1
    decreases e, j
  {
    if j == 0 then 1 else SizeUpTo(e, j - 1) + Size(e.parts[j - 1])
  }

  /** The header octets of an entity and what is inside it. */
  function HeaderBytes(e: Entity): (n: nat)
    decreases e, e.Width() + 1
  {
    |Text(e.headers)| +
    match e
    case Plain(_, _, _) => 0
    case Multi(_, _, _, _, _, _, _) => PartsBytes(e, 0)
    case Enclosing(_, _, message) => HeaderBytes(message)
  }

  function PartsBytes(e: Entity, j: nat): (n: nat)
    requires e.Multi? && j <= |e.parts|
    decreases e, |e.parts| - j
  {
    if j == |e.parts| then 0 else HeaderBytes(e.parts[j]) + PartsBytes(e, j + 1)
  }

  // --- what is found ----------------------------------------------------------------------------

  /** The nodes of the first n parts of an entity whose own node is id. */
  function PartIds(id: Id, e: Entity, n: nat): (s: seq<Id>)
    requires e.Multi? && n <= |e.parts|
  {
    seq(n, j requires 0 <= j < n => id + SizeUpTo(e, j))
  }

  /** The line break before a delimiter is the delimiter's; an empty body has none to give. */
  function WithoutBreak(s: string): (r: string) { s[..|s| - BreakOf(s)] }

  ghost predicate KindIs(n: Node, id: Id, e: Entity, parts: nat)
    requires parts <= e.Width()
  {
    && !n.headersTruncated && n.headers == Text(e.headers) && n.bodyStart == n.headerStart + |Head(e)|
    && match e
       case Plain(_, _, _) => n.kind == Leaf && n.children == [] && n.message == None
       case Multi(_, _, _, boundary, _, _, _) =>
         && n.kind == Multipart && n.boundary == Some(boundary) && n.message == None
         && n.children == PartIds(id, e, parts)
       case Enclosing(_, _, _) => n.kind == Message && n.children == [] && n.message == Some(id + 1)
  }

  /**
   The node of an entity that stands in the text: its header block, its kind and parts, its body octet for
   octet; whole where the end of the message ends it, without its last break where a delimiter does.
  */
  ghost predicate Found(n: Node, id: Id, e: Entity, t: string, whole: bool) {
    && KindIs(n, id, e, e.Width())
    && n.bodyStart <= n.bodyEnd <= |t|
    && t[n.headerStart..n.bodyStart] == Head(e)
    && t[n.bodyStart..n.bodyEnd] == if whole then Body(e) else WithoutBreak(Body(e))
  }

  /** The nodes from id on are those of the entity, each found in the text. */
  ghost predicate Matches(nodes: seq<Node>, id: Id, e: Entity, t: string, whole: bool)
    decreases e, e.Width() + 1
  {
    && id + Size(e) <= |nodes| && Found(nodes[id], id, e, t, whole)
    && (e.Multi? ==> PartsMatch(nodes, id, e, |e.parts|, t))
    && (e.Enclosing? ==> Matches(nodes, id + 1, e.message, t, whole))
  }

  ghost predicate PartsMatch(nodes: seq<Node>, id: Id, e: Entity, n: nat, t: string)
    requires e.Multi? && n <= |e.parts|
    decreases e, n
  {
    n == 0 || (PartsMatch(nodes, id, e, n - 1, t) && Matches(nodes, id + SizeUpTo(e, n - 1), e.parts[n - 1], t, false))
  }

  /** What is found stays found when other nodes change and text is added. */
  lemma {:induction false} MatchesStays(nodes: seq<Node>, r: seq<Node>, id: Id, e: Entity, t: string, u: string,
          whole: bool)
    requires Matches(nodes, id, e, t, whole) && t <= u && id + Size(e) <= |r|
    requires forall x :: id <= x < id + Size(e) ==> r[x] == nodes[x]
    ensures Matches(r, id, e, u, whole)
    decreases e, e.Width() + 1
  {
    hide Body, Head;
    var n := nodes[id];
    assert u[n.headerStart..n.bodyStart] == t[n.headerStart..n.bodyStart];
    assert u[n.bodyStart..n.bodyEnd] == t[n.bodyStart..n.bodyEnd];
    if e.Multi? { PartsStay(nodes, r, id, e, |e.parts|, t, u); }
    if e.Enclosing? { MatchesStays(nodes, r, id + 1, e.message, t, u, whole); }
  }

  lemma {:induction false} PartsStay(nodes: seq<Node>, r: seq<Node>, id: Id, e: Entity, n: nat, t: string, u: string)
    requires e.Multi? && n <= |e.parts| && PartsMatch(nodes, id, e, n, t) && t <= u
    requires id + SizeUpTo(e, n) <= |nodes| && id + SizeUpTo(e, n) <= |r|
    requires forall x :: id < x < id + SizeUpTo(e, n) ==> r[x] == nodes[x]
    ensures PartsMatch(r, id, e, n, u)
    decreases e, n
  {
    hide Matches, Size;
    if n > 0 {
      PartsStay(nodes, r, id, e, n - 1, t, u);
      MatchesStays(nodes, r, id + SizeUpTo(e, n - 1), e.parts[n - 1], t, u, false);
    }
  }

  // --- what may be composed ---------------------------------------------------------------------

  /** The boundaries looked for inside an entity. */
  function Around(e: Entity, around: set<string>): (s: set<string>) {
    if e.Multi? then around + {e.boundary} else around
  }

  ghost predicate HeadOk(e: Entity, around: set<string>, depth: nat, info: ContentInfo) {
    && (forall l :: l in e.headers ==> HeaderLine(l, around)) && |Text(e.headers)| <= MAX_PART_HEADER_BYTES
    && EmptyLine(e.blank)
    && match e
       case Plain(_, _, _) => !IsMultipart(info) && !(info.enclosed && !info.encoded)
       case Multi(_, _, _, boundary, _, _, _) =>
         info.multipart && info.boundary == Some(boundary) && 0 < |boundary| <= MAX_BOUNDARY
       case Enclosing(_, _, _) => !IsMultipart(info) && info.enclosed && !info.encoded && depth + 1 < MAX_DEPTH
  }

  ghost predicate DelimitersOk(e: Entity)
    requires e.Multi?
  {
    && |e.delimiters| == |e.parts| + 1
    && forall j :: 0 <= j <= |e.parts| ==> DelimiterLine(e.delimiters[j], e.boundary, j == |e.parts|)
  }

  /** The headers say what the entity is, and no line inside it is a delimiter of a multipart around it. */
  ghost predicate Composable(e: Entity, around: set<string>, depth: nat, digest: bool, read: HeaderReader)
    decreases e
  {
    var info := read(Text(e.headers), digest);
    && HeadOk(e, around, depth, info)
    && match e
       case Plain(_, _, body) => forall l :: l in body ==> BodyLine(l, around)
       case Multi(_, _, preamble, _, _, parts, epilogue) =>
         && (forall l :: l in preamble ==> BodyLine(l, Around(e, around)))
         && (forall l :: l in epilogue ==> BodyLine(l, around))
         && DelimitersOk(e) && (parts != [] ==> depth + 1 < MAX_DEPTH)
         && forall j :: 0 <= j < |parts| ==> Composable(parts[j], Around(e, around), depth + 1, info.digest, read)
       case Enclosing(_, _, message) => Composable(message, around, depth + 1, false, read)
  }

  // --- the head of an entity --------------------------------------------------------------------

  /** A part has just been opened at `at`: the last node, in its headers. */
  ghost predicate Fresh(c: Core, at: nat, depth: nat, digest: bool, read: HeaderReader) {
    && StackNames(c) && |c.nodes| > 0
    && c.stack[|c.stack| - 1] == NewFrame(|c.nodes| - 1, digest)
    && c.nodes[|c.nodes| - 1] == NewNode(at, depth, digest, read)
    && forall i :: 0 <= i < |c.stack| - 1 ==> c.stack[i].node < |c.nodes| - 1
  }

  /**
   The part that `base` had just opened at `at` is in its body, with n parts announced; what is around it
   is as it was.
  */
  ghost predicate Own(base: Core, c: Core, at: nat, depth: nat, e: Entity, info: ContentInfo, n: nat) {
    && n <= e.Width() && |base.stack| > 0 && |base.nodes| > 0
    && var k, id := |base.stack| - 1, |base.nodes| - 1;
       && StackNames(c) && |c.stack| > k && |c.nodes| > id
       && (forall i :: 0 <= i < k ==> SameFrame(base.stack[i], c.stack[i]) && base.stack[i].node < id)
       && c.nodes[..id] == base.nodes[..id]
       && c.stack[k].node == id && c.stack[k].inBody
       && c.nodes[id].headerStart == at && c.nodes[id].depth == depth && c.nodes[id].info == info
       && KindIs(c.nodes[id], id, e, n)
  }

  lemma OwnGuards(base: Core, c: Core, at: nat, depth: nat, e: Entity, info: ContentInfo, n: nat, around: set<string>)
    requires Own(base, c, at, depth, e, info, n) && Guarded(base, around)
    requires |c.stack| <= |base.stack| + 1 && (|c.stack| == |base.stack| + 1 ==> !c.stack[|base.stack|].inBody)
    ensures Guarded(c, Around(e, around))
    ensures c.stack[|base.stack| - 1].phase == Epilogue && |c.stack| == |base.stack| ==> Guarded(c, around)
  {
    var k := |base.stack| - 1;
    forall i | 0 <= i < |c.stack| ensures Watches(c.nodes, c.stack[i], Around(e, around)) {
      assert c.stack[i] in c.stack;
      if i < k { SameWatch(base, c, i, around); }
    }
    if c.stack[k].phase == Epilogue && |c.stack| == |base.stack| {
      forall i | 0 <= i < |c.stack| ensures Watches(c.nodes, c.stack[i], around) {
        assert c.stack[i] in c.stack;
        if i < k { SameWatch(base, c, i, around); }
      }
    }
  }

  lemma SameWatch(base: Core, c: Core, i: nat, around: set<string>)
    requires Guarded(base, around) && i < |base.stack| && i < |c.stack| && SameFrame(base.stack[i], c.stack[i])
    requires |base.nodes| > 0 && base.stack[i].node < |base.nodes| - 1 < |c.nodes|
    requires c.nodes[..|base.nodes| - 1] == base.nodes[..|base.nodes| - 1]
    ensures Watches(c.nodes, c.stack[i], around)
  {
    var x, id := base.stack[i].node, |base.nodes| - 1;
    assert Watches(base.nodes, base.stack[i], around);
    assert c.nodes[x] == c.nodes[..id][x] == base.nodes[..id][x] == base.nodes[x];
  }

  /** What the end of the header block makes of the entity's node, and of the message it encloses. */
  lemma HeadFinished(nodes: seq<Node>, e: Entity, around: set<string>, at: nat, depth: nat, digest: bool, end: nat,
          read: HeaderReader)
    requires |nodes| > 0 && nodes[|nodes| - 1] == NewNode(at, depth, digest, read).(bodyStart := end)
    requires end == at + |Head(e)| && HeadOk(e, around, depth, read(Text(e.headers), digest))
             && |nodes| - 1 + Size(e) <= MAX_PARTS
    ensures var id, info := |nodes| - 1, read(Text(e.headers), digest);
            var r := FinishHeaders(nodes, NewFrame(id, digest).(block := Text(e.headers)), end, read);
            && r.nodes[..id] == nodes[..id] && (r.inner.Some? <==> e.Enclosing?)
            && r.nodes[id].headerStart == at && r.nodes[id].depth == depth && r.nodes[id].info == info
            && KindIs(r.nodes[id], id, e, 0)
            && (e.Enclosing? ==> r.nodes[id + 1] == NewNode(end, depth + 1, false, read))
  {
    hide Head, Text;
    assert e.Enclosing? ==> Size(e) >= 2;
  }

  /** After the header block and the empty line. */
  ghost predicate Headed(base: Core, c: Core, at: nat, depth: nat, e: Entity, info: ContentInfo, t: string,
          read: HeaderReader)
  {
    && Own(base, c, at, depth, e, info, 0) && c.stack[|base.stack| - 1].phase == Preamble
    && if e.Enclosing? then |c.stack| == |base.stack| + 1 && |c.nodes| == |base.nodes| + 1
       && Fresh(c, |t|, depth + 1, false, read)
       else |c.stack| == |base.stack| && |c.nodes| == |base.nodes|
  }

  lemma HeadPhase(t: string, e: Entity, around: set<string>, depth: nat, digest: bool, read: HeaderReader)
    requires Ended(t) && Fresh(After(t, read), |t|, depth, digest, read) && Guarded(After(t, read), around)
    requires HeadOk(e, around, depth, read(Text(e.headers), digest)) && |Text(e.headers)| <= After(t, read).budget
    requires |After(t, read).nodes| - 1 + Size(e) <= MAX_PARTS
    ensures var base, u := After(t, read), t + Head(e);
            && Ended(u) && After(u, read).budget == base.budget - |Text(e.headers)|
            && Headed(base, After(u, read), |t|, depth, e, read(Text(e.headers), digest), u, read)
  {
    hide After, Ended, Guarded, HeaderLine, EmptyLine, Text, Fresh, FinishHeaders, Own, Headed, Size;
    var block, base := Text(e.headers), After(t, read);
    FreshMeans(base, |t|, depth, digest, around, read);
    HeaderPhase(t, e.headers, around, "", read);
    assert "" + block == block;
    var t1, u := t + block, t + Head(e);
    var c1 := After(t1, read);
    CollectedIs(base, c1, block, digest);
    EmptyLineStep(t1, e.blank, around, block, read);
    assert t1 + e.blank == u;
    var id := |base.nodes| - 1;
    HeadFinished(c1.nodes[id := c1.nodes[id].(bodyStart := |u|)], e, around, |t|, depth, digest, |u|, read);
    HeadedIs(base, c1, After(u, read), |t|, depth, digest, e, read(block, digest), u, read);
  }

  lemma FreshMeans(c: Core, at: nat, depth: nat, digest: bool, around: set<string>, read: HeaderReader)
    requires Fresh(c, at, depth, digest, read) && Guarded(c, around)
    ensures InHeaders(c, around, "") && |c.nodes| > 0 && |c.stack| > 0
    ensures c.stack[|c.stack| - 1] == NewFrame(|c.nodes| - 1, digest)
    ensures c.nodes[|c.nodes| - 1] == NewNode(at, depth, digest, read)
  {
  }

  lemma CollectedIs(base: Core, c: Core, block: string, digest: bool)
    requires Collecting(base, c, block, |block|) && |base.nodes| > 0
    requires base.stack[|base.stack| - 1] == NewFrame(|base.nodes| - 1, digest)
    ensures c.nodes == base.nodes && |c.stack| == |base.stack|
    ensures c.stack[|c.stack| - 1] == NewFrame(|base.nodes| - 1, digest).(block := block)
    ensures c.budget == base.budget - |block| && SameBelow(base, c)
  {
  }

  lemma HeadedIs(base: Core, c: Core, d: Core, at: nat, depth: nat, digest: bool, e: Entity, info: ContentInfo,
          t: string,
          read: HeaderReader)
    requires Fresh(base, at, depth, digest, read) && c.nodes == base.nodes && SameBelow(base, c) && StackNames(d)
    requires var k, id := |base.stack| - 1, |base.nodes| - 1;
             && |d.stack| == (if e.Enclosing? then k + 2 else k + 1)
             && |d.nodes| == (if e.Enclosing? then id + 2 else id + 1)
             && (forall i :: 0 <= i < k ==> SameFrame(c.stack[i], d.stack[i]))
             && d.stack[k] == NewFrame(id, digest).(inBody := true)
             && d.nodes[..id] == base.nodes[..id]
             && d.nodes[id].headerStart == at && d.nodes[id].depth == depth && d.nodes[id].info == info
             && KindIs(d.nodes[id], id, e, 0)
             && (e.Enclosing? ==> d.stack[k + 1] == NewFrame(id + 1, false)
                                  && d.nodes[id + 1] == NewNode(|t|, depth + 1, false, read))
    ensures Headed(base, d, at, depth, e, info, t, read)
  {
    hide KindIs;
    var k, id := |base.stack| - 1, |base.nodes| - 1;
    forall i | 0 <= i < k ensures SameFrame(base.stack[i], d.stack[i]) && base.stack[i].node < id {
      assert SameFrame(base.stack[i], c.stack[i]);
    }
  }

  // --- the frames an entity leaves open, and how they close -------------------------------------

  /**
   All of the entity has been read, and stands in the text at `at`: its own frame is at place k of the
   stack, those of a message it encloses above it, and all parts inside are found.
  */
  ghost predicate Chain(nodes: seq<Node>, stack: seq<Frame>, k: nat, id: Id, at: nat, e: Entity, t: string)
    decreases e
  {
    && k < |stack| && stack[k].node == id && stack[k].inBody
    && id + Size(e) <= |nodes| && nodes[id].headerStart == at && KindIs(nodes[id], id, e, e.Width())
    && match e
       case Plain(_, _, _) => |stack| == k + 1
       case Multi(_, _, _, _, _, parts, _) =>
         |stack| == k + 1 && stack[k].phase == Epilogue && PartsMatch(nodes, id, e, |parts|, t)
       case Enclosing(_, _, message) => Chain(nodes, stack, k + 1, id + 1, at + |Head(e)|, message, t)
  }

  lemma {:induction false} ChainIsDeaf(nodes: seq<Node>, stack: seq<Frame>, k: nat, id: Id, at: nat, e: Entity,
          t: string)
    requires Chain(nodes, stack, k, id, at, e, t)
    ensures forall i :: k <= i < |stack| ==> Deaf(nodes, stack[i])
    decreases e
  {
    hide PartsMatch;
    if e.Enclosing? { ChainIsDeaf(nodes, stack, k + 1, id + 1, at + |Head(e)|, e.message, t); }
  }

  /** The lowest of the frames that close is the last to close. */
  lemma {:induction false} CloseAboveLast(nodes: seq<Node>, stack: seq<Frame>, d: nat, at: nat, br: nat,
          read: HeaderReader)
    requires (forall f :: f in stack ==> f.node < |nodes|) && |stack| > d + 1
    ensures stack[d + 1] in stack
    ensures CloseAbove(nodes, stack, d, at, br, read)
            == CloseFrame(CloseAbove(nodes, stack, d + 1, at, br, read), stack[d + 1], at, br, read)
    decreases |stack|
  {
    hide CloseFrame;
    var top, rest := stack[|stack| - 1], stack[..|stack| - 1];
    var r := CloseFrame(nodes, top, at, br, read);
    assert stack[d + 1] in stack && forall f :: f in rest ==> f in stack;
    if |stack| > d + 2 { CloseAboveLast(r, rest, d, at, br, read); }
  }

  lemma {:induction false} CloseAllLast(nodes: seq<Node>, stack: seq<Frame>, size: nat, read: HeaderReader)
    requires (forall f :: f in stack ==> f.node < |nodes|) && stack != []
    ensures stack[0] in stack && (forall f :: f in stack[1..] ==> f in stack)
    ensures CloseAll(nodes, stack, size, read)
            == CloseAtEnd(CloseAll(nodes, stack[1..], size, read), stack[0], size, read)
    decreases |stack|
  {
    hide CloseAtEnd;
    var top, rest := stack[|stack| - 1], stack[..|stack| - 1];
    var r := CloseAtEnd(nodes, top, size, read);
    assert stack[0] in stack && forall f :: f in rest ==> f in stack;
    assert forall f :: f in stack[1..] ==> f in stack;
    if |stack| > 1 {
      CloseAllLast(r, rest, size, read);
      var upper := stack[1..];
      assert upper[|upper| - 1] == top && upper[..|upper| - 1] == rest[1..];
    } else {
      assert stack[1..] == [];
    }
  }

  /** A part in its body closes at the line break before the delimiter, or where it is empty. */
  lemma ClosedNode(nodes: seq<Node>, f: Frame, at: nat, br: nat, end: nat, read: HeaderReader)
    requires f.node < |nodes| && f.inBody && nodes[f.node].headerStart <= nodes[f.node].bodyStart
    requires end == Max(nodes[f.node].bodyStart, at - br)
    ensures var r := CloseFrame(nodes, f, at, br, read);
            && |r| == |nodes| && (forall i :: 0 <= i < |r| && i != f.node ==> r[i] == nodes[i])
            && r[f.node] == nodes[f.node].(bodyEnd := end, lines := r[f.node].lines)
  {
  }

  lemma EndedNode(nodes: seq<Node>, f: Frame, size: nat, read: HeaderReader)
    requires f.node < |nodes| && f.inBody
    ensures var r := CloseAtEnd(nodes, f, size, read);
            && |r| == |nodes| && (forall i :: 0 <= i < |r| && i != f.node ==> r[i] == nodes[i])
            && r[f.node] == nodes[f.node].(bodyEnd := size, lines := r[f.node].lines)
  {
  }

  lemma FoundIs(n: Node, r: Node, id: Id, e: Entity, t: string, whole: bool)
    requires KindIs(n, id, e, e.Width()) && r == n.(bodyEnd := r.bodyEnd, lines := r.lines)
    requires n.headerStart <= n.bodyStart <= r.bodyEnd <= |t| && t[n.headerStart..n.bodyStart] == Head(e)
    requires t[n.bodyStart..r.bodyEnd] == if whole then Body(e) else WithoutBreak(Body(e))
    ensures Found(r, id, e, t, whole)
  {
  }

  lemma MatchesIs(nodes: seq<Node>, id: Id, e: Entity, t: string, whole: bool)
    requires id + Size(e) <= |nodes| && id < |nodes| && Found(nodes[id], id, e, t, whole)
    requires e.Multi? ==> PartsMatch(nodes, id, e, |e.parts|, t)
    requires e.Enclosing? ==> Matches(nodes, id + 1, e.message, t, whole)
    ensures Matches(nodes, id, e, t, whole)
  {
  }

  /** Every header block ends with an empty line. */
  ghost predicate Blanks(e: Entity) {
    EmptyLine(e.blank) && (e.Enclosing? ==> Blanks(e.message))
  }

  /** Where the head and the body of an entity stand. */
  lemma HeadAndBody(u: string, at: nat, e: Entity)
    requires at <= |u| && u[at..] == Compose(e) && Ended(u) && EmptyLine(e.blank)
    ensures var start, body := at + |Head(e)|, Body(e);
            && start + |body| == |u| && u[at..start] == Head(e) && u[start..] == body
            && start + |WithoutBreak(body)| == Max(start, |u| - BreakOf(u)) <= |u|
            && u[start..start + |WithoutBreak(body)|] == WithoutBreak(body)
  {
    hide *;
    ComposeIs(e);
    HeadEnds(e);
    CutText(u, at, Head(e), Body(e));
  }

  lemma CutText(u: string, at: nat, head: string, body: string)
    requires at <= |u| && u[at..] == head + body && Ended(u) && |head| > 0 && head[|head| - 1] == '\n'
    ensures var start := at + |head|;
            && start + |body| == |u| && u[at..start] == head && u[start..] == body
            && start + |WithoutBreak(body)| == Max(start, |u| - BreakOf(u)) <= |u|
            && u[start..start + |WithoutBreak(body)|] == WithoutBreak(body)
  {
    hide BreakOf;
    var start := at + |head|;
    SplitText(u, at, head, body);
    assert u == u[..start] + body && u[start - 1] == u[at..start][|head| - 1];
    if body != "" {
      assert body[|body| - 1] == u[|u| - 1];
      BreakJoins(u[..start], body);
    } else {
      NoBreak();
    }
  }

  lemma SplitText(u: string, at: nat, head: string, body: string)
    requires at <= |u| && u[at..] == head + body
    ensures at + |head| + |body| == |u| && u[at..at + |head|] == head && u[at + |head|..] == body
  {
    var rest, start := u[at..], at + |head|;
    assert u[at..start] == rest[..|head|] && u[start..] == rest[|head|..];
  }

  lemma HeadEnds(e: Entity)
    requires EmptyLine(e.blank)
    ensures |Head(e)| > 0 && Head(e)[|Head(e)| - 1] == '\n'
  {
    BlankEnds(e.blank);
  }

  lemma ComposeIs(e: Entity)
    ensures Compose(e) == Head(e) + Body(e)
  {
  }

  lemma BlankEnds(line: string)
    requires EmptyLine(line)
    ensures |line| > 0 && line[|line| - 1] == '\n'
  {
  }

  lemma NoBreak()
    ensures BreakOf("") == 0
  {
  }

  lemma ChainMeans(nodes: seq<Node>, stack: seq<Frame>, k: nat, id: Id, at: nat, e: Entity, t: string)
    requires Chain(nodes, stack, k, id, at, e, t)
    ensures k < |stack| && stack[k].node == id && stack[k].inBody && id + Size(e) <= |nodes| && id < |nodes|
    ensures KindIs(nodes[id], id, e, e.Width())
    ensures nodes[id].headerStart == at && nodes[id].bodyStart == at + |Head(e)|
    ensures e.Plain? ==> |stack| == k + 1
    ensures e.Multi? ==>
              |stack| == k + 1 && Size(e) == SizeUpTo(e, |e.parts|) && PartsMatch(nodes, id, e, |e.parts|, t)
    ensures e.Enclosing? ==>
              Size(e) == 1 + Size(e.message)
              && Chain(nodes, stack, k + 1, id + 1, at + |Head(e)|, e.message, t)
  {
  }

  /** A delimiter closes the frames of the entity, and it is found. */
  lemma {:induction false} ChainFound(nodes: seq<Node>, stack: seq<Frame>, d: nat, id: Id, at: nat, e: Entity,
          u: string,
          read: HeaderReader)
    requires Chain(nodes, stack, d + 1, id, at, e, u) && (forall f :: f in stack ==> f.node < |nodes|) && Blanks(e)
    requires Ended(u) && at <= |u| && u[at..] == Compose(e)
    ensures var r := CloseAbove(nodes, stack, d, |u|, BreakOf(u), read);
            && |r| == |nodes| && (forall x :: 0 <= x < |r| && !(id <= x < id + Size(e)) ==> r[x] == nodes[x])
            && Matches(r, id, e, u, false)
    decreases e
  {
    hide *;
    ChainMeans(nodes, stack, d + 1, id, at, e, u);
    BlanksMean(e);
    HeadAndBody(u, at, e);
    CloseAboveLast(nodes, stack, d, |u|, BreakOf(u), read);
    var r1 := CloseAbove(nodes, stack, d + 1, |u|, BreakOf(u), read);
    if e.Enclosing? {
      ChainFound(nodes, stack, d + 1, id + 1, at + |Head(e)|, e.message, u, read);
    } else {
      NothingAbove(nodes, stack, d + 1, |u|, BreakOf(u), read);
    }
    var r := CloseFrame(r1, stack[d + 1], |u|, BreakOf(u), read);
    ClosedNode(r1, stack[d + 1], |u|, BreakOf(u), at + |Head(e)| + |WithoutBreak(Body(e))|, read);
    FoundIs(r1[id], r[id], id, e, u, false);
    InsideStays(r1, r, id, e, u, false);
    MatchesIs(r, id, e, u, false);
  }

  lemma BlanksMean(e: Entity)
    requires Blanks(e)
    ensures EmptyLine(e.blank) && (e.Enclosing? ==> Blanks(e.message) && Body(e) == Compose(e.message))
  {
  }

  lemma NothingAbove(nodes: seq<Node>, stack: seq<Frame>, d: nat, at: nat, br: nat, read: HeaderReader)
    requires (forall f :: f in stack ==> f.node < |nodes|) && |stack| <= d + 1
    ensures CloseAbove(nodes, stack, d, at, br, read) == nodes
  {
  }

  /** What is inside an entity stays found when only its own node changes. */
  lemma InsideStays(nodes: seq<Node>, r: seq<Node>, id: Id, e: Entity, t: string, whole: bool)
    requires |r| == |nodes| && id + Size(e) <= |nodes| && (forall x :: 0 <= x < |r| && x != id ==> r[x] == nodes[x])
    requires e.Multi? ==> Size(e) == SizeUpTo(e, |e.parts|) && PartsMatch(nodes, id, e, |e.parts|, t)
    requires e.Enclosing? ==> Size(e) == 1 + Size(e.message) && Matches(nodes, id + 1, e.message, t, whole)
    ensures e.Multi? ==> PartsMatch(r, id, e, |e.parts|, t)
    ensures e.Enclosing? ==> Matches(r, id + 1, e.message, t, whole)
  {
    hide *;
    if e.Multi? { PartsStay(nodes, r, id, e, |e.parts|, t, t); }
    if e.Enclosing? { MatchesStays(nodes, r, id + 1, e.message, t, t, whole); }
  }

  lemma {:induction false} ChainShift(nodes: seq<Node>, stack: seq<Frame>, k: nat, id: Id, at: nat, e: Entity,
          t: string)
    requires k > 0 && Chain(nodes, stack, k, id, at, e, t)
    ensures Chain(nodes, stack[1..], k - 1, id, at, e, t)
    decreases e
  {
    hide PartsMatch, KindIs;
    if e.Enclosing? { ChainShift(nodes, stack, k + 1, id + 1, at + |Head(e)|, e.message, t); }
  }

  /** The end of the message closes the frames of the entity, and it is found whole. */
  lemma {:induction false} ChainEnds(nodes: seq<Node>, stack: seq<Frame>, id: Id, at: nat, e: Entity, u: string,
          read: HeaderReader)
    requires Chain(nodes, stack, 0, id, at, e, u) && (forall f :: f in stack ==> f.node < |nodes|) && Blanks(e)
    requires Ended(u) && at <= |u| && u[at..] == Compose(e)
    ensures var r := CloseAll(nodes, stack, |u|, read);
            && |r| == |nodes| && (forall x :: 0 <= x < |r| && !(id <= x < id + Size(e)) ==> r[x] == nodes[x])
            && Matches(r, id, e, u, true)
    decreases e
  {
    hide *;
    ChainMeans(nodes, stack, 0, id, at, e, u);
    BlanksMean(e);
    HeadAndBody(u, at, e);
    CloseAllLast(nodes, stack, |u|, read);
    var r1 := CloseAll(nodes, stack[1..], |u|, read);
    if e.Enclosing? {
      ChainShift(nodes, stack, 1, id + 1, at + |Head(e)|, e.message, u);
      ChainEnds(nodes, stack[1..], id + 1, at + |Head(e)|, e.message, u, read);
    } else {
      assert stack[1..] == [];
      NothingOpen(nodes, |u|, read);
    }
    var r := CloseAtEnd(r1, stack[0], |u|, read);
    EndedNode(r1, stack[0], |u|, read);
    assert u[at + |Head(e)|..|u|] == u[at + |Head(e)|..];
    FoundIs(r1[id], r[id], id, e, u, true);
    InsideStays(r1, r, id, e, u, true);
    MatchesIs(r, id, e, u, true);
  }

  lemma NothingOpen(nodes: seq<Node>, size: nat, read: HeaderReader)
    ensures CloseAll(nodes, [], size, read) == nodes
  {
  }

  // --- an entity, and the parts of one ----------------------------------------------------------

  /** All of the entity has been read, and of it only its own frames are still open. */
  ghost predicate Done(base: Core, c: Core, at: nat, depth: nat, e: Entity, info: ContentInfo, t: string) {
    && Own(base, c, at, depth, e, info, e.Width())
    && Chain(c.nodes, c.stack, |base.stack| - 1, |base.nodes| - 1, at, e, t)
    && |c.nodes| == |base.nodes| - 1 + Size(e)
  }

  /** Parts up to n are found, and part n has just been opened. */
  ghost predicate Opened(base: Core, c: Core, at: nat, depth: nat, e: Entity, info: ContentInfo, n: nat, t: string,
          read: HeaderReader)
  {
    && e.Multi? && n < |e.parts| && Own(base, c, at, depth, e, info, n + 1)
    && c.stack[|base.stack| - 1].phase != Epilogue && |c.stack| == |base.stack| + 1
    && |c.nodes| == |base.nodes| + SizeUpTo(e, n) && Fresh(c, |t|, depth + 1, info.digest, read)
    && PartsMatch(c.nodes, |base.nodes| - 1, e, n, t)
  }

  /** Before a delimiter line: the parts up to n are found once what is above their multipart closes. */
  ghost predicate Ready(base: Core, c: Core, at: nat, depth: nat, e: Entity, info: ContentInfo, n: nat, t: string,
          read: HeaderReader)
  {
    && e.Multi? && n <= |e.parts| && Own(base, c, at, depth, e, info, n)
    && Awaiting(c, |base.stack| - 1, e.boundary)
    && var nodes := CloseAbove(c.nodes, c.stack, |base.stack| - 1, |t|, c.prevBreak, read);
       && |nodes| == |base.nodes| - 1 + SizeUpTo(e, n) && nodes[..|base.nodes|] == c.nodes[..|base.nodes|]
       && PartsMatch(nodes, |base.nodes| - 1, e, n, t)
  }

  /** The delimiter line opens the next part, or closes a multipart whose parts are all found. */
  lemma Delimited(t: string, base: Core, at: nat, depth: nat, e: Entity, info: ContentInfo, n: nat, read: HeaderReader)
    requires e.Multi? && n <= |e.parts| && Ended(t) && Ready(base, After(t, read), at, depth, e, info, n, t, read)
    requires DelimiterLine(e.Delimiter(n), e.boundary, n == |e.parts|)
    requires n < |e.parts| ==> depth + 1 < MAX_DEPTH && |base.nodes| - 1 + SizeUpTo(e, n) < MAX_PARTS
    ensures var u := t + e.Delimiter(n);
            var d := After(u, read);
            && Ended(u) && d.budget == After(t, read).budget
            && if n == |e.parts| then Done(base, d, at, depth, e, info, u)
               else Opened(base, d, at, depth, e, info, n, u, read)
  {
    hide After, Ended, TakeDelimiter, DelimiterOf, DelimiterLine, CloseAbove, OpenChild, Awaiting, PartsMatch, KindIs;
    hide Ready, Done, Opened, Own, Content;
    var c, k := After(t, read), |base.stack| - 1;
    var line := e.Delimiter(n);
    var u, seen := t + line, Seen(t, line, |line|);
    ReadyMeans(base, c, at, depth, e, info, n, t, read);
    DelimiterStep(t, line, k, e.boundary, n == |e.parts|, read);
    TakesDelimiter(c, k, seen, read);
    var nodes := CloseAbove(c.nodes, c.stack, k, |t|, c.prevBreak, read);
    var stack := CountAll(c.stack[..k + 1], seen.brLen, seen.ContentLen());
    assert t <= u;
    PartsStay(nodes, nodes, |base.nodes| - 1, e, n, t, u);
    OwnCloses(base, c, at, depth, e, info, n, nodes, stack);
    if n == |e.parts| {
      AllDone(base, nodes, stack, c.budget, seen.brLen, at, depth, e, info, u);
    } else {
      NextOpens(base, nodes, stack, c.budget, seen, at, depth, e, info, n, u, read);
    }
  }

  lemma ReadyMeans(base: Core, c: Core, at: nat, depth: nat, e: Entity, info: ContentInfo, n: nat, t: string,
          read: HeaderReader)
    requires Ready(base, c, at, depth, e, info, n, t, read)
    ensures e.Multi? && n <= |e.parts| && Own(base, c, at, depth, e, info, n)
    ensures StackNames(c) && Awaiting(c, |base.stack| - 1, e.boundary) && |c.stack| >= |base.stack| > 0
            && |base.nodes| > 0
    ensures var nodes := CloseAbove(c.nodes, c.stack, |base.stack| - 1, |t|, c.prevBreak, read);
            && |nodes| == |base.nodes| - 1 + SizeUpTo(e, n) && nodes[..|base.nodes|] == c.nodes[..|base.nodes|]
            && PartsMatch(nodes, |base.nodes| - 1, e, n, t)
  {
  }

  /** What is above the multipart has closed, and the line is counted. */
  ghost predicate Settled(base: Core, nodes: seq<Node>, stack: seq<Frame>, at: nat, depth: nat, e: Entity,
          info: ContentInfo, n: nat)
  {
    && |base.stack| > 0 && |base.nodes| > 0 && n <= e.Width()
    && var k, id := |base.stack| - 1, |base.nodes| - 1;
       && |stack| == k + 1 && |nodes| > id
       && (forall i :: 0 <= i < k ==> SameFrame(base.stack[i], stack[i]) && base.stack[i].node < id)
       && nodes[..id] == base.nodes[..id] && stack[k].node == id && stack[k].inBody
       && nodes[id].headerStart == at && nodes[id].depth == depth && nodes[id].info == info
       && KindIs(nodes[id], id, e, n)
  }

  lemma OwnCloses(base: Core, c: Core, at: nat, depth: nat, e: Entity, info: ContentInfo, n: nat, nodes: seq<Node>,
          stack: seq<Frame>)
    requires Own(base, c, at, depth, e, info, n) && |nodes| >= |base.nodes|
    requires nodes[..|base.nodes|] == c.nodes[..|base.nodes|]
    requires |stack| == |base.stack| && forall i :: 0 <= i < |stack| ==> SameFrame(c.stack[i], stack[i])
    ensures Settled(base, nodes, stack, at, depth, e, info, n)
  {
    hide KindIs;
    var id := |base.nodes| - 1;
    assert nodes[id] == nodes[..|base.nodes|][id] == c.nodes[id];
    assert nodes[..id] == nodes[..|base.nodes|][..id] == c.nodes[..|base.nodes|][..id] == c.nodes[..id];
  }

  lemma StackOf(base: Core, nodes: seq<Node>, stack: seq<Frame>, phase: Phase, at: nat, depth: nat, e: Entity,
          info: ContentInfo, n: nat)
    requires Settled(base, nodes, stack, at, depth, e, info, n)
    ensures var s := stack[|stack| - 1 := stack[|stack| - 1].(phase := phase)];
            && (forall f :: f in s ==> f.node < |nodes|) && |s| == |stack| == |base.stack|
            && s[|s| - 1].phase == phase && s[|s| - 1].node == |base.nodes| - 1
            && Settled(base, nodes, s, at, depth, e, info, n)
  {
    hide KindIs;
    var s := stack[|stack| - 1 := stack[|stack| - 1].(phase := phase)];
    forall f | f in s ensures f.node < |nodes| {
      var i :| 0 <= i < |s| && s[i] == f;
    }
  }

  lemma AllDone(base: Core, nodes: seq<Node>, stack: seq<Frame>, budget: int, br: nat, at: nat, depth: nat, e: Entity,
          info: ContentInfo, u: string)
    requires e.Multi? && Settled(base, nodes, stack, at, depth, e, info, |e.parts|)
    requires |nodes| == |base.nodes| - 1 + SizeUpTo(e, |e.parts|)
             && PartsMatch(nodes, |base.nodes| - 1, e, |e.parts|, u)
    ensures var k := |base.stack| - 1;
            Done(base, Core(nodes, stack[k := stack[k].(phase := Epilogue)], budget, br), at, depth, e, info, u)
  {
    hide KindIs, PartsMatch;
    StackOf(base, nodes, stack, Epilogue, at, depth, e, info, |e.parts|);
  }

  lemma OpensOne(nodes: seq<Node>, s: seq<Frame>, budget: int, line: LineSeen, read: HeaderReader)
    requires |s| > 0 && (forall f :: f in s ==> f.node < |nodes|) && s[|s| - 1].node < |nodes| < MAX_PARTS
    requires nodes[s[|s| - 1].node].depth + 1 < MAX_DEPTH
    ensures var d, id := OpenChild(nodes, s, budget, line, read), s[|s| - 1].node;
            var n := nodes[id];
            && d.nodes == nodes[id := n.(children := n.children + [|nodes|])]
                          + [NewNode(line.end, n.depth + 1, n.info.digest, read)]
            && d.stack == s + [NewFrame(|nodes|, n.info.digest)] && d.stack[|s|].node == |nodes|
            && d.budget == budget
  {
  }

  lemma NextOpens(base: Core, nodes: seq<Node>, stack: seq<Frame>, budget: int, line: LineSeen, at: nat, depth: nat,
          e: Entity, info: ContentInfo, n: nat, u: string, read: HeaderReader)
    requires e.Multi? && n < |e.parts| && Settled(base, nodes, stack, at, depth, e, info, n)
    requires |nodes| == |base.nodes| - 1 + SizeUpTo(e, n) < MAX_PARTS && depth + 1 < MAX_DEPTH
    requires PartsMatch(nodes, |base.nodes| - 1, e, n, u) && line.end == |u|
    ensures var k := |base.stack| - 1;
            var s := stack[k := stack[k].(phase := Parts)];
            && (forall f :: f in s ==> f.node < |nodes|)
            && var d := OpenChild(nodes, s, budget, line, read);
               d.budget == budget && Opened(base, d, at, depth, e, info, n, u, read)
  {
    hide *;
    StackOf(base, nodes, stack, Parts, at, depth, e, info, n);
    SettledMeans(base, nodes, stack, at, depth, e, info, n);
    var k, id := |base.stack| - 1, |base.nodes| - 1;
    var s := stack[k := stack[k].(phase := Parts)];
    var d := OpenChild(nodes, s, budget, line, read);
    OpensOne(nodes, s, budget, line, read);
    assert d.nodes[..id] == nodes[..id];
    NamesStay(s, d, |nodes|);
    NextOwn(base, nodes, s, d, at, depth, e, info, n);
    NextFresh(base, nodes, s, d, at, depth, e, info, n, |u|, read);
    PartsStay(nodes, d.nodes, id, e, n, u, u);
    OpenedIs(base, d, at, depth, e, info, n, u, read);
  }

  lemma SettledMeans(base: Core, nodes: seq<Node>, stack: seq<Frame>, at: nat, depth: nat, e: Entity,
          info: ContentInfo, n: nat)
    requires Settled(base, nodes, stack, at, depth, e, info, n)
    ensures |base.stack| == |stack| > 0 && 0 < |base.nodes| <= |nodes|
    ensures nodes[|base.nodes| - 1].depth == depth && nodes[|base.nodes| - 1].info == info
  {
  }

  lemma NamesStay(s: seq<Frame>, d: Core, n: nat)
    requires (forall f :: f in s ==> f.node < n) && |s| > 0 && |d.stack| == |s| + 1 && d.stack[..|s|] == s
    requires d.stack[|s|].node == n < |d.nodes|
    ensures StackNames(d)
  {
    forall f | f in d.stack ensures f.node < |d.nodes| {
      var i :| 0 <= i < |d.stack| && d.stack[i] == f;
      if i < |s| { assert d.stack[..|s|][i] in s; }
    }
  }

  lemma NextOwn(base: Core, nodes: seq<Node>, s: seq<Frame>, d: Core, at: nat, depth: nat, e: Entity,
          info: ContentInfo, n: nat)
    requires e.Multi? && n < |e.parts| && Settled(base, nodes, s, at, depth, e, info, n) && StackNames(d)
    requires |d.nodes| > |nodes| == |base.nodes| - 1 + SizeUpTo(e, n) && |d.stack| == |s| + 1 && d.stack[..|s|] == s
    requires var id := |base.nodes| - 1;
             d.nodes[..id] == nodes[..id] && d.nodes[id] == nodes[id].(children := nodes[id].children + [|nodes|])
    ensures Own(base, d, at, depth, e, info, n + 1)
  {
    hide KindIs, SizeUpTo;
    var id := |base.nodes| - 1;
    MorePartIds(nodes[id], d.nodes[id], id, e, n);
    forall i | 0 <= i < |s| ensures d.stack[i] == s[i] {
      assert d.stack[..|s|][i] == s[i];
    }
  }

  lemma NextFresh(base: Core, nodes: seq<Node>, s: seq<Frame>, d: Core, at: nat, depth: nat, e: Entity,
          info: ContentInfo, n: nat, start: nat, read: HeaderReader)
    requires Settled(base, nodes, s, at, depth, e, info, n) && StackNames(d) && |d.nodes| == |nodes| + 1
    requires |d.stack| == |s| + 1 && d.stack[..|s|] == s && d.stack[|s|] == NewFrame(|nodes|, info.digest)
    requires d.nodes[|nodes|] == NewNode(start, depth + 1, info.digest, read)
    ensures Fresh(d, start, depth + 1, info.digest, read)
  {
    hide KindIs;
    forall i | 0 <= i < |s| ensures d.stack[i].node < |nodes| {
      assert d.stack[..|s|][i] == s[i];
    }
  }

  lemma OpenedIs(base: Core, c: Core, at: nat, depth: nat, e: Entity, info: ContentInfo, n: nat, t: string,
          read: HeaderReader)
    requires e.Multi? && n < |e.parts| && Own(base, c, at, depth, e, info, n + 1) && |base.stack| > 0
    requires |c.stack| == |base.stack| + 1 && c.stack[|base.stack| - 1].phase != Epilogue
    requires |c.nodes| == |base.nodes| + SizeUpTo(e, n) && Fresh(c, |t|, depth + 1, info.digest, read)
    requires PartsMatch(c.nodes, |base.nodes| - 1, e, n, t)
    ensures Opened(base, c, at, depth, e, info, n, t, read)
  {
  }

  lemma MorePartIds(n: Node, r: Node, id: Id, e: Entity, parts: nat)
    requires e.Multi? && parts < |e.parts| && KindIs(n, id, e, parts)
    requires r == n.(children := n.children + [id + SizeUpTo(e, parts)])
    ensures KindIs(r, id, e, parts + 1)
  {
    OneMoreId(id, e, parts);
  }

  lemma OneMoreId(id: Id, e: Entity, n: nat)
    requires e.Multi? && n < |e.parts|
    ensures PartIds(id, e, n + 1) == PartIds(id, e, n) + [id + SizeUpTo(e, n)]
  {
  }

  /** The part just read closes before the next delimiter, and is found. */
  lemma PartCloses(base: Core, c1: Core, c: Core, at: nat, depth: nat, e: Entity, info: ContentInfo, n: nat,
          t: string, u: string, inner: ContentInfo, read: HeaderReader)
    requires Opened(base, c1, at, depth, e, info, n, t, read) && Done(c1, c, |t|, depth + 1, e.parts[n], inner, u)
    requires u == t + Compose(e.parts[n]) && Ended(u) && Blanks(e.parts[n]) && c.prevBreak == BreakOf(u)
    ensures Ready(base, c, at, depth, e, info, n + 1, u, read)
  {
    hide PartsMatch, Compose, KindIs, Fresh, SizeUpTo, Size, Matches, Deaf, CloseAbove, Chain, Blanks, Ended, BreakOf;
    var k, id, x, part := |base.stack| - 1, |base.nodes| - 1, |c1.nodes| - 1, e.parts[n];
    assert |c1.nodes| > |base.nodes| by { SizeGrows(e, 0, n); }
    OwnThrough(base, c1, c, at, depth, e, info, n + 1, |t|, depth + 1, part, inner);
    ChainIsDeaf(c.nodes, c.stack, k + 1, x, |t|, part, u);
    OwnAwaits(base, c, at, depth, e, info, n + 1);
    assert u[|t|..] == Compose(part);
    ChainFound(c.nodes, c.stack, k, x, |t|, part, u, read);
    var nodes := CloseAbove(c.nodes, c.stack, k, |u|, c.prevBreak, read);
    forall i | 0 <= i < x ensures nodes[i] == c1.nodes[i] {
      assert c.nodes[i] == c.nodes[..x][i] == c1.nodes[..x][i];
    }
    PartsStay(c1.nodes, nodes, id, e, n, t, u);
    OneMorePart(nodes, id, e, n, u);
    assert nodes[..|base.nodes|] == c.nodes[..|base.nodes|];
  }

  lemma OwnAwaits(base: Core, c: Core, at: nat, depth: nat, e: Entity, info: ContentInfo, n: nat)
    requires e.Multi? && Own(base, c, at, depth, e, info, n) && c.stack[|base.stack| - 1].phase != Epilogue
    requires forall i :: |base.stack| <= i < |c.stack| ==> Deaf(c.nodes, c.stack[i])
    ensures Awaiting(c, |base.stack| - 1, e.boundary)
  {
  }

  /** What is around a part stays as it is while what the part has opened is read. */
  lemma OwnThrough(base: Core, c1: Core, c: Core, at: nat, depth: nat, e: Entity, info: ContentInfo, n: nat,
          start: nat, deeper: nat, part: Entity, inner: ContentInfo)
    requires Own(base, c1, at, depth, e, info, n) && |c1.stack| == |base.stack| + 1 && |c1.nodes| > |base.nodes|
    requires Own(c1, c, start, deeper, part, inner, part.Width())
    ensures Own(base, c, at, depth, e, info, n)
    ensures c.stack[|base.stack| - 1].phase == c1.stack[|base.stack| - 1].phase
  {
    hide KindIs;
    var k, id, x := |base.stack| - 1, |base.nodes| - 1, |c1.nodes| - 1;
    assert c.nodes[id] == c.nodes[..x][id] == c1.nodes[..x][id] == c1.nodes[id];
    assert c.nodes[..id] == c.nodes[..x][..id] == c1.nodes[..x][..id] == c1.nodes[..id];
    assert SameFrame(c1.stack[k], c.stack[k]);
  }

  lemma OneMorePart(nodes: seq<Node>, id: Id, e: Entity, n: nat, t: string)
    requires e.Multi? && n < |e.parts| && PartsMatch(nodes, id, e, n, t)
    requires Matches(nodes, id + SizeUpTo(e, n), e.parts[n], t, false)
    ensures PartsMatch(nodes, id, e, n + 1, t) && SizeUpTo(e, n + 1) == SizeUpTo(e, n) + Size(e.parts[n])
  {
  }

  // --- the whole entity -------------------------------------------------------------------------

  /** Lines of a body change nothing but counts. */
  lemma OwnCounts(base: Core, c: Core, d: Core, at: nat, depth: nat, e: Entity, info: ContentInfo, n: nat)
    requires Own(base, c, at, depth, e, info, n) && SameButCounts(c, d)
    ensures Own(base, d, at, depth, e, info, n)
    ensures d.stack[|base.stack| - 1].phase == c.stack[|base.stack| - 1].phase
  {
    hide KindIs;
    forall f | f in d.stack ensures f.node < |d.nodes| {
      var i :| 0 <= i < |d.stack| && d.stack[i] == f;
      assert c.stack[i] in c.stack;
    }
  }

  /** Before its first delimiter a multipart is ready for it. */
  lemma NonePending(base: Core, c: Core, d: Core, at: nat, depth: nat, e: Entity, info: ContentInfo, t: string,
          read: HeaderReader)
    requires e.Multi? && Own(base, c, at, depth, e, info, 0) && |c.stack| == |base.stack| && |c.nodes| == |base.nodes|
    requires c.stack[|base.stack| - 1].phase != Epilogue && SameButCounts(c, d)
    ensures Ready(base, d, at, depth, e, info, 0, t, read) && d.budget == c.budget
  {
    OwnCounts(base, c, d, at, depth, e, info, 0);
  }

  lemma {:induction false} SizeGrows(e: Entity, m: nat, n: nat)
    requires e.Multi? && m <= n <= |e.parts|
    ensures SizeUpTo(e, m) <= SizeUpTo(e, n)
    decreases n - m
  {
    if m < n { SizeGrows(e, m, n - 1); }
  }

  lemma {:induction false} PartsPhase(t: string, base: Core, at: nat, depth: nat, e: Entity, info: ContentInfo, n: nat,
          around: set<string>, digest: bool, read: HeaderReader)
    requires e.Multi? && n <= |e.parts|
    requires Ended(t) && Ready(base, After(t, read), at, depth, e, info, n, t, read) && Guarded(base, around)
    requires Composable(e, around, depth, digest, read) && info == read(Text(e.headers), digest)
    requires PartsBytes(e, n) <= After(t, read).budget && |base.nodes| - 1 + Size(e) <= MAX_PARTS
    ensures var u := t + PartsText(e, n);
            && Ended(u) && Done(base, After(u, read), at, depth, e, info, u)
            && After(u, read).budget == After(t, read).budget - PartsBytes(e, n)
    decreases e, |e.parts| - n
  {
    hide *;
    PartsUnfold(e, n);
    ComposableMeans(e, n, around, depth, digest, read);
    PartSizes(e, n);
    Delimited(t, base, at, depth, e, info, n, read);
    var u1 := t + e.Delimiter(n);
    if n < |e.parts| {
      var c1, part := After(u1, read), e.parts[n];
      OpenedMeans(base, c1, at, depth, e, info, n, u1, around, read);
      EntityPhase(u1, part, Around(e, around), depth + 1, info.digest, read);
      var u2 := u1 + Compose(part);
      ComposableBlanks(part, Around(e, around), depth + 1, info.digest, read);
      assert u2 != "" by { ComposeLong(part); }
      PrevBreakIs(u2, read);
      PartCloses(base, c1, After(u2, read), at, depth, e, info, n, u1, u2, read(Text(part.headers), info.digest), read);
      PartsPhase(u2, base, at, depth, e, info, n + 1, around, digest, read);
      assert u2 + PartsText(e, n + 1) == t + PartsText(e, n);
    }
  }

  lemma PartsUnfold(e: Entity, n: nat)
    requires e.Multi? && n <= |e.parts|
    ensures n == |e.parts| ==> PartsText(e, n) == e.Delimiter(n) && PartsBytes(e, n) == 0
    ensures n < |e.parts| ==>
              && PartsText(e, n) == e.Delimiter(n) + Compose(e.parts[n]) + PartsText(e, n + 1)
              && PartsBytes(e, n) == HeaderBytes(e.parts[n]) + PartsBytes(e, n + 1)
  {
  }

  lemma ComposeLong(e: Entity)
    requires Blanks(e)
    ensures |Compose(e)| > 0
  {
    HeadEnds(e);
  }

  lemma {:induction false} ComposableBlanks(e: Entity, around: set<string>, depth: nat, digest: bool,
          read: HeaderReader)
    requires Composable(e, around, depth, digest, read)
    ensures Blanks(e)
    decreases e
  {
    if e.Enclosing? { ComposableBlanks(e.message, around, depth + 1, false, read); }
  }

  lemma PartSizes(e: Entity, n: nat)
    requires e.Multi? && n <= |e.parts|
    ensures SizeUpTo(e, n) <= Size(e)
    ensures n < |e.parts| ==> SizeUpTo(e, n) < SizeUpTo(e, n) + Size(e.parts[n]) == SizeUpTo(e, n + 1) <= Size(e)
  {
    SizeGrows(e, n, |e.parts|);
    if n < |e.parts| { SizeGrows(e, n + 1, |e.parts|); }
  }

  lemma ComposableMeans(e: Entity, n: nat, around: set<string>, depth: nat, digest: bool, read: HeaderReader)
    requires e.Multi? && n <= |e.parts| && Composable(e, around, depth, digest, read)
    ensures DelimiterLine(e.Delimiter(n), e.boundary, n == |e.parts|)
    ensures var info := read(Text(e.headers), digest);
            n < |e.parts| ==>
              depth + 1 < MAX_DEPTH && Composable(e.parts[n], Around(e, around), depth + 1, info.digest, read)
  {
  }

  lemma OpenedMeans(base: Core, c: Core, at: nat, depth: nat, e: Entity, info: ContentInfo, n: nat, t: string,
          around: set<string>, read: HeaderReader)
    requires Opened(base, c, at, depth, e, info, n, t, read) && Guarded(base, around)
    ensures Fresh(c, |t|, depth + 1, info.digest, read) && Guarded(c, Around(e, around))
    ensures |c.nodes| == |base.nodes| + SizeUpTo(e, n)
  {
    hide Guarded, PartsMatch, KindIs, SizeUpTo;
    OwnGuards(base, c, at, depth, e, info, n + 1, around);
  }

  lemma {:induction false} EntityPhase(t: string, e: Entity, around: set<string>, depth: nat, digest: bool,
          read: HeaderReader)
    requires Ended(t) && Fresh(After(t, read), |t|, depth, digest, read) && Guarded(After(t, read), around)
    requires Composable(e, around, depth, digest, read) && HeaderBytes(e) <= After(t, read).budget
    requires |After(t, read).nodes| - 1 + Size(e) <= MAX_PARTS
    ensures var base, u := After(t, read), t + Compose(e);
            && Ended(u) && Done(base, After(u, read), |t|, depth, e, read(Text(e.headers), digest), u)
            && After(u, read).budget == base.budget - HeaderBytes(e)
    decreases e, e.Width() + 2
  {
    hide *;
    var base, info := After(t, read), read(Text(e.headers), digest);
    EntityMeans(e, around, depth, digest, read);
    HeadPhase(t, e, around, depth, digest, read);
    var t1, u := t + Head(e), t + Compose(e);
    var c1 := After(t1, read);
    HeadedMeans(base, c1, |t|, depth, e, info, t1, around, read);
    match e {
      case Plain(_, _, body) =>
        BodyPhase(t1, body, around, read);
        PlainDone(base, c1, After(t1 + Text(body), read), |t|, depth, e, info, u);
        assert t1 + Text(body) == u;
      case Multi(_, _, preamble, _, _, _, epilogue) =>
        BodyPhase(t1, preamble, Around(e, around), read);
        var t2 := t1 + Text(preamble);
        NonePending(base, c1, After(t2, read), |t|, depth, e, info, t2, read);
        PartsPhase(t2, base, |t|, depth, e, info, 0, around, digest, read);
        var t3 := t2 + PartsText(e, 0);
        EpiloguePhase(t3, base, |t|, depth, e, info, around, read);
        assert t3 + Text(epilogue) == u;
      case Enclosing(_, _, message) =>
        EntityPhase(t1, message, around, depth + 1, false, read);
        assert t1 + Compose(message) == u;
        EnclosingDone(base, c1, After(u, read), |t|, depth, e, info, t1, u, read(Text(message.headers), false), read);
    }
  }

  lemma EntityMeans(e: Entity, around: set<string>, depth: nat, digest: bool, read: HeaderReader)
    requires Composable(e, around, depth, digest, read)
    ensures HeadOk(e, around, depth, read(Text(e.headers), digest))
    ensures Compose(e) == Head(e) + Body(e)
    ensures e.Plain? ==>
              && (forall l :: l in e.body ==> BodyLine(l, around)) && Around(e, around) == around
              && Body(e) == Text(e.body) && HeaderBytes(e) == |Text(e.headers)|
    ensures e.Multi? ==>
              && (forall l :: l in e.preamble ==> BodyLine(l, Around(e, around)))
              && (forall l :: l in e.epilogue ==> BodyLine(l, around))
              && Body(e) == Text(e.preamble) + PartsText(e, 0) + Text(e.epilogue)
              && HeaderBytes(e) == |Text(e.headers)| + PartsBytes(e, 0) && e.Width() == |e.parts|
    ensures e.Enclosing? ==>
              && Composable(e.message, around, depth + 1, false, read) && Around(e, around) == around
              && Body(e) == Compose(e.message) && HeaderBytes(e) == |Text(e.headers)| + HeaderBytes(e.message)
              && Size(e) == 1 + Size(e.message)
  {
  }

  lemma HeadedMeans(base: Core, c: Core, at: nat, depth: nat, e: Entity, info: ContentInfo, t: string,
          around: set<string>,
          read: HeaderReader)
    requires Headed(base, c, at, depth, e, info, t, read) && Guarded(base, around)
    ensures Own(base, c, at, depth, e, info, 0) && |c.stack| > 0 && |base.stack| > 0 && Guarded(c, Around(e, around))
    ensures !e.Enclosing? ==>
              && |c.stack| == |base.stack| && |c.nodes| == |base.nodes| && c.stack[|c.stack| - 1].inBody
              && c.stack[|base.stack| - 1].phase != Epilogue
    ensures e.Enclosing? ==>
              |c.stack| == |base.stack| + 1 && |c.nodes| == |base.nodes| + 1 && Fresh(c, |t|, depth + 1, false, read)
  {
    hide Guarded, KindIs;
    OwnGuards(base, c, at, depth, e, info, 0, around);
  }

  lemma PlainDone(base: Core, c: Core, d: Core, at: nat, depth: nat, e: Entity, info: ContentInfo, t: string)
    requires e.Plain? && Own(base, c, at, depth, e, info, 0) && SameButCounts(c, d)
    requires |c.stack| == |base.stack| && |c.nodes| == |base.nodes|
    ensures Done(base, d, at, depth, e, info, t) && d.budget == c.budget
  {
    hide KindIs;
    OwnCounts(base, c, d, at, depth, e, info, 0);
  }

  /** The message has been read inside its part. */
  lemma EnclosingDone(base: Core, c1: Core, c: Core, at: nat, depth: nat, e: Entity, info: ContentInfo, t: string,
          u: string,
          inner: ContentInfo, read: HeaderReader)
    requires e.Enclosing? && Own(base, c1, at, depth, e, info, 0) && |t| == at + |Head(e)|
    requires |c1.stack| == |base.stack| + 1 && |c1.nodes| == |base.nodes| + 1
    requires Done(c1, c, |t|, depth + 1, e.message, inner, u)
    ensures Done(base, c, at, depth, e, info, u)
  {
    hide KindIs, Head;
    OwnThrough(base, c1, c, at, depth, e, info, 0, |t|, depth + 1, e.message, inner);
  }

  lemma EpiloguePhase(t: string, base: Core, at: nat, depth: nat, e: Entity, info: ContentInfo, around: set<string>,
          read: HeaderReader)
    requires e.Multi? && Ended(t) && Done(base, After(t, read), at, depth, e, info, t) && Guarded(base, around)
    requires forall l :: l in e.epilogue ==> BodyLine(l, around)
    ensures var u := t + Text(e.epilogue);
            && Ended(u) && Done(base, After(u, read), at, depth, e, info, u)
            && After(u, read).budget == After(t, read).budget
  {
    hide *;
    var c, u := After(t, read), t + Text(e.epilogue);
    EpilogueGuards(base, c, at, depth, e, info, t, around);
    BodyPhase(t, e.epilogue, around, read);
    assert t <= u;
    DoneCounts(base, c, After(u, read), at, depth, e, info, t, u);
  }

  lemma EpilogueGuards(base: Core, c: Core, at: nat, depth: nat, e: Entity, info: ContentInfo, t: string,
          around: set<string>)
    requires e.Multi? && Done(base, c, at, depth, e, info, t) && Guarded(base, around)
    ensures Guarded(c, around) && |c.stack| > 0 && c.stack[|c.stack| - 1].inBody
  {
    hide Guarded, KindIs, PartsMatch;
    OwnGuards(base, c, at, depth, e, info, |e.parts|, around);
  }

  lemma DoneCounts(base: Core, c: Core, d: Core, at: nat, depth: nat, e: Entity, info: ContentInfo, t: string,
          u: string)
    requires e.Multi? && Done(base, c, at, depth, e, info, t) && SameButCounts(c, d) && t <= u
    ensures Done(base, d, at, depth, e, info, u) && d.budget == c.budget
  {
    hide *;
    DoneMeans(base, c, at, depth, e, info, t);
    CountsMean(c, d);
    OwnCounts(base, c, d, at, depth, e, info, |e.parts|);
    PartsStay(c.nodes, c.nodes, |base.nodes| - 1, e, |e.parts|, t, u);
    DoneIs(base, d, at, depth, e, info, u);
  }

  lemma CountsMean(c: Core, d: Core)
    requires SameButCounts(c, d)
    ensures d.nodes == c.nodes && d.budget == c.budget && |d.stack| == |c.stack|
  {
  }

  lemma DoneMeans(base: Core, c: Core, at: nat, depth: nat, e: Entity, info: ContentInfo, t: string)
    requires e.Multi? && Done(base, c, at, depth, e, info, t)
    ensures Own(base, c, at, depth, e, info, |e.parts|) && |c.stack| == |base.stack| > 0 && |base.nodes| > 0
    ensures |c.nodes| == |base.nodes| - 1 + Size(e) && Size(e) == SizeUpTo(e, |e.parts|)
    ensures c.stack[|c.stack| - 1].phase == Epilogue && PartsMatch(c.nodes, |base.nodes| - 1, e, |e.parts|, t)
  {
  }

  lemma DoneIs(base: Core, c: Core, at: nat, depth: nat, e: Entity, info: ContentInfo, t: string)
    requires e.Multi? && Own(base, c, at, depth, e, info, |e.parts|) && |c.stack| == |base.stack| > 0
             && |base.nodes| > 0
    requires |c.nodes| == |base.nodes| - 1 + Size(e) && c.stack[|c.stack| - 1].phase == Epilogue
    requires PartsMatch(c.nodes, |base.nodes| - 1, e, |e.parts|, t)
    ensures Done(base, c, at, depth, e, info, t)
  {
  }

  /**
   A message composed of entities, multiparts and enclosed messages inside one another to any depth, none of
   whose lines looks like a delimiter of a multipart around it, has when scanned exactly those entities, each
   in its place in the tree: with its own header block, its kind, boundary and parts, and its own body octet
   for octet.
  */
  lemma ComposedIsFound(e: Entity, read: HeaderReader)
    requires Composable(e, {}, 0, false, read)
    requires Size(e) <= MAX_PARTS && HeaderBytes(e) <= MAX_MESSAGE_HEADER_BYTES
    ensures var t := Compose(e);
            |Structure(t, read)| == Size(e) && Matches(Structure(t, read), 0, e, t, true)
  {
    hide *;
    var t := Compose(e);
    NothingRead(read);
    assert "" + t == t;
    EntityPhase("", e, {}, 0, false, read);
    ComposableBlanks(e, {}, 0, false, read);
    RootIs(Start(read), After(t, read), e, read(Text(e.headers), false), t);
    assert t[0..] == t;
    ChainEnds(After(t, read).nodes, After(t, read).stack, 0, 0, e, t, read);
    StructureIs(t, read);
  }

  lemma NothingRead(read: HeaderReader)
    ensures Ended("") && After("", read) == Start(read) && Fresh(Start(read), 0, 0, false, read)
    ensures Guarded(Start(read), {}) && |Start(read).stack| == |Start(read).nodes| == 1
    ensures Start(read).budget == MAX_MESSAGE_HEADER_BYTES
  {
  }

  lemma RootIs(base: Core, c: Core, e: Entity, info: ContentInfo, t: string)
    requires Done(base, c, 0, 0, e, info, t) && |base.stack| == |base.nodes| == 1
    ensures Chain(c.nodes, c.stack, 0, 0, 0, e, t) && |c.nodes| == Size(e)
    ensures forall f :: f in c.stack ==> f.node < |c.nodes|
  {
  }

  lemma StructureIs(t: string, read: HeaderReader)
    ensures (forall f :: f in After(t, read).stack ==> f.node < |After(t, read).nodes|)
    ensures Structure(t, read) == CloseAll(After(t, read).nodes, After(t, read).stack, |t|, read)
  {
    hide ScanFrom, CloseAll;
  }

  // --- a part that ends past its parent ---------------------------------------------------------

  const OUTER: string := "Content-Type: multipart/mixed; boundary=a\r\n"

  const INNER: string := "Content-Type: multipart/mixed; boundary=b\r\n"

  /** The reader reads the Content-Type lines of two multiparts as such, and no header block as plain text. */
  ghost predicate ReadsMixed(read: HeaderReader) {
    && read(OUTER, false) == ContentInfo(true, true, Some("a"), false, false, false)
    && read(INNER, false) == ContentInfo(true, true, Some("b"), false, false, false)
    && read("", false) == ContentInfo(false, false, None, false, false, false)
  }

  /** A multipart with this one header line, and a part still to come. */
  function Mixed(line: string, b: string): (e: Entity) {
    Multi([line], "\r\n", [], b, ["--" + b + "\r\n", "--" + b + "--\r\n"], [Plain([], "\r\n", [])], [])
  }

  lemma MixedText(line: string, b: string)
    ensures var e := Mixed(line, b);
            Text(e.headers) == line && Head(e) == line + "\r\n" && Text(e.preamble) == "" && Size(e) == 2
              && SizeUpTo(e, 0) == 1
  {
    assert [line][1..] == [] && line + "" == line;
    assert SizeUpTo(Mixed(line, b), 1) == 2;
  }

  lemma FirstDelimiter(b: string)
    requires |b| == 1 && b != "\n"
    ensures DelimiterLine("--" + b + "\r\n", b, false) && EmptyLine("\r\n")
  {
    var line := "--" + b + "\r\n";
    assert Content(line) == "--" + b;
    assert ("--" + b)[2..3] == b && ("--" + b)[3..] == "";
  }

  /** A multipart and its first delimiter: a part is open inside it. */
  lemma MixedOpens(t: string, line: string, b: string, around: set<string>, depth: nat, read: HeaderReader)
    requires Ended(t) && Fresh(After(t, read), |t|, depth, false, read) && Guarded(After(t, read), around)
    requires HeaderLine(line, around) && |line| <= After(t, read).budget && |line| <= CAPTURE
    requires read(line, false) == ContentInfo(true, true, Some(b), false, false, false)
    requires |b| == 1 && b != "\n" && depth + 1 < MAX_DEPTH && |After(t, read).nodes| < MAX_PARTS
    ensures var u := t + (line + "\r\n" + ("--" + b + "\r\n"));
            && Ended(u) && After(u, read).budget == After(t, read).budget - |line|
            && Opened(After(t, read), After(u, read), |t|, depth, Mixed(line, b), read(line, false), 0, u, read)
            && Guarded(After(u, read), around + {b})
  {
    hide After, Ended, Guarded, HeaderLine, Fresh, Own, Ready, Headed, SameButCounts, DelimiterLine, EmptyLine, Opened;
    hide Text, Head, Size, SizeUpTo;
    var base, e, info := After(t, read), Mixed(line, b), read(line, false);
    MixedText(line, b);
    FirstDelimiter(b);
    HeadPhase(t, e, around, depth, false, read);
    var t1 := t + (line + "\r\n");
    var c1 := After(t1, read);
    HeadedMeans(base, c1, |t|, depth, e, info, t1, around, read);
    NothingAdded(c1);
    NonePending(base, c1, c1, |t|, depth, e, info, t1, read);
    Delimited(t1, base, |t|, depth, e, info, 0, read);
    var u := t1 + ("--" + b + "\r\n");
    OpenedMeans(base, After(u, read), |t|, depth, e, info, 0, u, around, read);
    assert u == t + (line + "\r\n" + ("--" + b + "\r\n"));
  }

  /** A part just opened at `at`, inside two multiparts; the inner one starts five octets before. */
  ghost predicate ThreeOpen(c: Core, at: nat, read: HeaderReader) {
    && StackNames(c) && |c.nodes| == 3 && |c.stack| == 3
    && c.stack[0].node == 0 && c.stack[0].inBody && c.stack[0].phase != Epilogue
    && c.nodes[0].kind == Multipart && c.nodes[0].boundary == Some("a")
    && c.stack[1].node == 1 && c.stack[1].inBody && c.nodes[1].boundary == Some("b")
    && c.nodes[1].children == [2] && c.nodes[1].message == None
    && c.nodes[1].headerStart <= c.nodes[1].bodyStart == at - 5
    && c.stack[2] == NewFrame(2, false) && c.nodes[2] == NewNode(at, 2, false, read)
  }

  lemma ThreeOpenIs(base: Core, c1: Core, c: Core, t: string, u: string, read: HeaderReader)
    requires ReadsMixed(read) && |base.stack| == |base.nodes| == 1
    requires Opened(base, c1, 0, 0, Mixed(OUTER, "a"), read(OUTER, false), 0, t, read)
    requires Opened(c1, c, |t|, 1, Mixed(INNER, "b"), read(INNER, false), 0, u, read)
    requires |u| == |t| + |INNER| + 7
    ensures ThreeOpen(c, |u|, read)
  {
    MixedText(OUTER, "a");
    MixedText(INNER, "b");
    assert c.nodes[..1][0] == c1.nodes[..1][0];
    assert PartIds(1, Mixed(INNER, "b"), 1) == [2];
    assert SameFrame(c1.stack[0], c.stack[0]);
  }

  /** The outer delimiter on the next line closes the part just opened, and its parent. */
  lemma OuterCloses(c: Core, at: nat, read: HeaderReader)
    requires ThreeOpen(c, at, read) && ReadsMixed(read)
    ensures var r := CloseAbove(c.nodes, c.stack, 0, at, 2, read);
            |r| == 3 && MimeProofs.Below(r[1]) == [2] && r[1].bodyEnd == at - 2 && r[2].bodyEnd == at
  {
    var f, g := c.stack[2], c.stack[1];
    var r := CloseFrame(c.nodes, f, at, 2, read);
    var q := CloseFrame(r, g, at, 2, read);
    assert c.stack[..2][..1] == [c.stack[0]] && c.stack[..2][1] == g;
    assert CloseAbove(q, [c.stack[0]], 0, at, 2, read) == q;
    assert CloseAbove(r, c.stack[..2], 0, at, 2, read) == q;
  }

  /** The outer delimiter is found below both. */
  lemma FindsOuter(c: Core, at: nat, content: string, read: HeaderReader)
    requires ThreeOpen(c, at, read) && content == "--a--"
    ensures FindDelimiter(c.nodes, c.stack, content) == Some(0)
    ensures DelimiterOf(c.nodes, c.stack[0], content) == CloseDelimiter
  {
    assert content[2..3] == "a" != "b" && content[5..] == "";
    assert c.stack[..2][..1] == [c.stack[0]];
    assert FindDelimiter(c.nodes, [c.stack[0]], content) == Some(0);
    assert FindDelimiter(c.nodes, c.stack[..2], content) == Some(0);
  }

  lemma OuterDelimiter(u: string, read: HeaderReader)
    requires Ended(u) && ThreeOpen(After(u, read), |u|, read) && ReadsMixed(read) && BreakOf(u) == 2
    ensures var d := After(u + "--a--\r\n", read);
            && |d.stack| == 1 && d.stack[0].node == 0 && d.stack[0].inBody && |d.nodes| == 3
            && MimeProofs.Below(d.nodes[1]) == [2] && d.nodes[2].bodyEnd == d.nodes[1].bodyEnd + 2
  {
    hide After, Ended, CloseAbove, DelimiterOf, FindDelimiter, ThreeOpen, CapFor, ReadsMixed;
    var c, line := After(u, read), "--a--\r\n";
    NextLineIs(u, line, read);
    PrevBreakIs(u, read);
    var seen := Seen(u, line, CapFor(c));
    assert seen.raw == line && seen.raw[..5] == "--a--" && seen.Complete() && seen.ContentLen() == 5;
    FindsOuter(c, |u|, "--a--", read);
    OuterCloses(c, |u|, read);
    TakesDelimiter(c, 0, seen, read);
    assert |c.stack| == 3 && c.stack[0].node == 0 && c.stack[0].inBody by {
      ThreeMeans(c, |u|, read);
    }
  }

  lemma ThreeMeans(c: Core, at: nat, read: HeaderReader)
    requires ThreeOpen(c, at, read)
    ensures |c.stack| == 3 && c.stack[0].node == 0 && c.stack[0].inBody
  {
  }

  lemma RootClosesLast(t: string, read: HeaderReader)
    requires |After(t, read).stack| == 1 && After(t, read).stack[0].node == 0 && After(t, read).stack[0].inBody
    ensures var nodes, r := After(t, read).nodes, Structure(t, read);
            |r| == |nodes| && forall k :: 0 < k < |r| ==> r[k] == nodes[k]
  {
    hide After, CloseAll, Structure;
    var c := After(t, read);
    StructureIs(t, read);
    CloseAllLast(c.nodes, c.stack, |t|, read);
    assert c.stack[1..] == [] && c.stack[0] in c.stack;
    NothingOpen(c.nodes, |t|, read);
    EndedNode(c.nodes, c.stack[0], |t|, read);
  }

  lemma LetterLine(content: string, around: set<string>)
    requires '\n' !in content && content != "" && content[0] == 'C'
    ensures HeaderLine(content + "\r\n", around)
  {
    hide MatchDelimiter;
    var line := content + "\r\n";
    assert line[|line| - 1] == '\n' && line[|line| - 2] == '\r';
    assert Content(line) == content;
    forall i | 0 <= i < |line| - 1 ensures line[i] != '\n' {
      assert i < |content| ==> line[i] in content;
    }
  }

  lemma HeaderLines()
    ensures HeaderLine(OUTER, {}) && HeaderLine(INNER, {"a"}) && |OUTER| <= CAPTURE && |INNER| <= CAPTURE
  {
    hide HeaderLine;
    var outer, inner := "Content-Type: multipart/mixed; boundary=a", "Content-Type: multipart/mixed; boundary=b";
    assert outer + "\r\n" == OUTER && inner + "\r\n" == INNER;
    LetterLine(outer, {});
    LetterLine(inner, {"a"});
  }

  /**
   A part with an empty body can end past its parent, by two octets: opened by the inner delimiter, it is
   closed by the outer one on the next line, whose line break the inner multipart gives up and the part
   does not have.
  */
  lemma EmptyPartPastItsParent(read: HeaderReader)
    requires ReadsMixed(read)
    ensures var t := OUTER + "\r\n--a\r\n" + INNER + "\r\n--b\r\n" + "--a--\r\n";
            var nodes := Structure(t, read);
            |nodes| == 3 && MimeProofs.Below(nodes[1]) == [2] && nodes[2].bodyEnd == nodes[1].bodyEnd + 2
  {
    hide After, Ended, Fresh, Guarded, Opened, HeaderLine, Structure, ThreeOpen, Start;
    var x, y := OUTER + "\r\n" + ("--" + "a" + "\r\n"), INNER + "\r\n" + ("--" + "b" + "\r\n");
    NothingRead(read);
    HeaderLines();
    assert "" + x == x && {} + {"a"} == {"a"};
    MixedOpens("", OUTER, "a", {}, 0, read);
    OpenedMeans(Start(read), After(x, read), 0, 0, Mixed(OUTER, "a"), read(OUTER, false), 0, x, {}, read);
    MixedText(OUTER, "a");
    MixedOpens(x, INNER, "b", {"a"}, 1, read);
    var u := x + y;
    ThreeOpenIs(Start(read), After(x, read), After(u, read), x, u, read);
    assert BreakOf(u) == 2;
    OuterDelimiter(u, read);
    RootClosesLast(u + "--a--\r\n", read);
    assert u + "--a--\r\n" == OUTER + "\r\n--a\r\n" + INNER + "\r\n--b\r\n" + "--a--\r\n";
  }
}
