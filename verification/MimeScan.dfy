/**
 The MIME structure of a message, with the byte offsets of every part (apps/imap/src/structure.ts).
 The scanner works line by line on a stack of open parts. Nodes live in a list and are named by their
 place in it; the count of parts is the length of that list. What the header block of a part says is
 the answer of a function given to the scanner: the parsing of header fields is not modelled here.
*/
module MimeScan {
  import opened Sets

  const CAPTURE: nat := 1024
  const MAX_BOUNDARY: nat := 200
  const MAX_PART_HEADER_BYTES: nat := 256 * 1024
  const MAX_MESSAGE_HEADER_BYTES: nat := 2 * 1024 * 1024
  const MAX_DEPTH: nat := 32
  const MAX_PARTS: nat := 5000

  type Id = nat

  /** What a header block says: its Content-Type, and whether the body is base64 or quoted-printable. */
  datatype ContentInfo = ContentInfo(
    hasContentType: bool, multipart: bool, boundary: Option<string>, digest: bool, enclosed: bool, encoded: bool)

  /** From a header block and whether the type defaults to message/rfc822 (a part of a digest). */
  type HeaderReader = (string, bool) -> ContentInfo

  datatype Kind = Leaf | Multipart | Message

  datatype Node = Node(
    headerStart: nat, bodyStart: nat, bodyEnd: nat,
    headers: string, headersTruncated: bool, info: ContentInfo,
    kind: Kind, boundary: Option<string>, children: seq<Id>, message: Option<Id>,
    lines: nat, depth: nat)

  datatype Phase = Preamble | Parts | Epilogue

  /** An open part: its header lines while in its headers, the lines of its body after. */
  datatype Frame = Frame(node: Id, inDigest: bool, inBody: bool, block: string, phase: Phase, lineCount: nat,
      lastLen: int)

  datatype Core = Core(nodes: seq<Node>, stack: seq<Frame>, budget: int, prevBreak: nat)

  function NewNode(headerStart: nat, depth: nat, inDigest: bool, read: HeaderReader): (n: Node) {
    Node(headerStart, headerStart, headerStart, "", false, read("", inDigest), Leaf, None, [], None, 0, depth)
  }

  function NewFrame(node: Id, inDigest: bool): (f: Frame) {
    Frame(node, inDigest, false, "", Preamble, 0, 0)
  }

  function Start(read: HeaderReader): (c: Core) {
    Core([NewNode(0, 0, false, read)], [NewFrame(0, false)], MAX_MESSAGE_HEADER_BYTES, 0)
  }

  function Max(a: int, b: int): (m: int) { if a < b then b else a }

  function Min(a: int, b: int): (m: int) { if a < b then a else b }

  // --- the end of a header block ----------------------------------------------------------------

  datatype Opened = Opened(nodes: seq<Node>, inner: Option<Frame>)

  predicate IsMultipart(info: ContentInfo) {
    info.multipart && info.boundary.Some? && 0 < |info.boundary.value| <= MAX_BOUNDARY
  }

  predicate OpensMessage(info: ContentInfo, depth: nat, parts: nat) {
    !IsMultipart(info) && info.enclosed && !info.encoded && depth + 1 < MAX_DEPTH && parts < MAX_PARTS
  }

  /** The headers of a part are over, and its body starts at `at`: an enclosed message opens a part of its own. */
  function FinishHeaders(nodes: seq<Node>, f: Frame, at: nat, read: HeaderReader): (r: Opened)
    requires f.node < |nodes|
    ensures |nodes| <= |r.nodes| && f.node < |r.nodes|
    ensures r.inner.Some? ==> r.inner.value == NewFrame(|nodes|, false) && |r.nodes| == |nodes| + 1
    ensures r.inner.None? ==> |r.nodes| == |nodes|
  {
    var info := read(f.block, f.inDigest);
    var n := nodes[f.node].(headers := f.block, info := info);
    if IsMultipart(info) then
      Opened(nodes[f.node := n.(kind := Multipart, boundary := info.boundary)], None)
    else if OpensMessage(info, n.depth, |nodes|) then
      Opened(nodes[f.node := n.(kind := Message, message := Some(|nodes|))] + [NewNode(at, n.depth + 1, false, read)],
             Some(NewFrame(|nodes|, false)))
    else Opened(nodes[f.node := n], None)
  }

  // --- closing parts ----------------------------------------------------------------------------

  /** The part's header block ends here too, and so does a message it encloses. */
  function EndHeadersAt(nodes: seq<Node>, f: Frame, end: nat, read: HeaderReader): (r: seq<Node>)
    requires f.node < |nodes|
    ensures |nodes| <= |r|
  {
    var after := FinishHeaders(nodes[f.node := nodes[f.node].(bodyStart := end)], f, end, read);
    match after.inner
    case None => after.nodes
    case Some(g) => after.nodes[g.node := after.nodes[g.node].(bodyStart := end, bodyEnd := end)]
  }

  /** A delimiter line at `at` closes a part: the line break before the delimiter is not the part's. */
  function CloseFrame(nodes: seq<Node>, f: Frame, at: nat, prevBreak: nat, read: HeaderReader): (r: seq<Node>)
    requires f.node < |nodes|
    ensures |nodes| <= |r|
  {
    var end := Max(nodes[f.node].headerStart, at - prevBreak);
    var ended := if f.inBody then nodes else EndHeadersAt(nodes, f, end, read);
    var n := ended[f.node];
    ended[f.node := n.(bodyEnd := Max(n.bodyStart, end),
                       lines := if f.lineCount == 0 then 0 else f.lineCount - 1 + (if f.lastLen > 0 then 1 else 0))]
  }

  function CloseAbove(nodes: seq<Node>, stack: seq<Frame>, d: nat, at: nat, prevBreak: nat,
          read: HeaderReader): (r: seq<Node>)
    requires forall f :: f in stack ==> f.node < |nodes|
    ensures |nodes| <= |r|
    decreases |stack|
  {
    if |stack| <= d + 1 then nodes
    else CloseAbove(CloseFrame(nodes, stack[|stack| - 1], at, prevBreak, read), stack[..|stack| - 1], d, at, prevBreak,
      read)
  }

  function CloseAtEnd(nodes: seq<Node>, f: Frame, size: nat, read: HeaderReader): (r: seq<Node>)
    requires f.node < |nodes|
    ensures |nodes| <= |r|
  {
    var ended := if f.inBody then nodes else EndHeadersAt(nodes, f, size, read);
    ended[f.node := ended[f.node].(bodyEnd := size, lines := f.lineCount)]
  }

  function CloseAll(nodes: seq<Node>, stack: seq<Frame>, size: nat, read: HeaderReader): (r: seq<Node>)
    requires forall f :: f in stack ==> f.node < |nodes|
    ensures |nodes| <= |r|
    decreases |stack|
  {
    if stack == [] then nodes
    else CloseAll(CloseAtEnd(nodes, stack[|stack| - 1], size, read), stack[..|stack| - 1], size, read)
  }

  // --- delimiter lines --------------------------------------------------------------------------

  datatype Match = NotDelimiter | OpenDelimiter | CloseDelimiter

  predicate Blank(s: string) { forall i :: 0 <= i < |s| ==> s[i] == ' ' || s[i] == '\t' }

  /** The line is two hyphens, the boundary, two more when it closes, and blanks. */
  function MatchDelimiter(content: string, boundary: string): (m: Match) {
    var b := 2 + |boundary|;
    if |content| < b || content[2..b] != boundary then NotDelimiter
    else if b + 1 < |content| && content[b] == '-' && content[b + 1] == '-' then
      if Blank(content[b + 2..]) then CloseDelimiter else NotDelimiter
    else if Blank(content[b..]) then OpenDelimiter else NotDelimiter
  }

  /** The text is the mark and then nothing but spaces and tabs. */
  ghost predicate Padded(s: string, mark: string) {
    mark <= s && forall i :: |mark| <= i < |s| ==> s[i] == ' ' || s[i] == '\t'
  }

  /** A delimiter line of the boundary (section 5.1.1 of RFC 2046): hyphens, boundary, hyphens if it closes, padding. */
  ghost predicate Delimits(content: string, boundary: string, closing: bool) {
    |content| >= 2 && content[..2] == "--" && Padded(content[2..], if closing then boundary + "--" else boundary)
  }

  /** After two octets, what is matched is the boundary, or the boundary and two hyphens, and padding. */
  lemma MatchExact(content: string, boundary: string)
    ensures MatchDelimiter(content, boundary) == OpenDelimiter <==>
            |content| >= 2 && Padded(content[2..], boundary)
    ensures MatchDelimiter(content, boundary) == CloseDelimiter <==>
            |content| >= 2 && Padded(content[2..], boundary + "--")
  {
    var b := 2 + |boundary|;
    if |content| >= b && content[2..b] == boundary {
      var rest := content[2..];
      assert rest[..|boundary|] == boundary;
      assert forall i :: |boundary| <= i < |rest| ==> rest[i] == content[b..][i - |boundary|];
      var mark := boundary + "--";
      if |content| >= b + 2 {
        assert mark <= rest <==> content[b] == '-' && content[b + 1] == '-' by {
          assert rest[|boundary|] == content[b] && rest[|boundary| + 1] == content[b + 1];
          if content[b] == '-' && content[b + 1] == '-' { assert rest[..|mark|] == mark; }
          if mark <= rest { assert mark[|boundary|] == '-' && mark[|boundary| + 1] == '-'; }
        }
        assert forall i :: |mark| <= i < |rest| ==> rest[i] == content[b + 2..][i - |mark|];
        PaddedFrom(content, b);
        PaddedFrom(content, b + 2);
      } else {
        PaddedFrom(content, b);
      }
    } else if |content| >= b {
      assert content[2..b] == content[2..][..|boundary|];
    }
  }

  lemma PaddedFrom(content: string, b: nat)
    requires 2 <= b <= |content|
    ensures Blank(content[b..]) <==>
            forall i :: b - 2 <= i < |content[2..]| ==> content[2..][i] == ' ' || content[2..][i] == '\t'
  {
    var rest, tail := content[2..], content[b..];
    if Blank(tail) {
      forall i | b - 2 <= i < |rest| ensures rest[i] == ' ' || rest[i] == '\t' { assert rest[i] == tail[i - (b - 2)]; }
    }
    if forall i :: b - 2 <= i < |rest| ==> rest[i] == ' ' || rest[i] == '\t' {
      forall i | 0 <= i < |tail| ensures tail[i] == ' ' || tail[i] == '\t' { assert tail[i] == rest[i + (b - 2)]; }
    }
  }

  function DelimiterOf(nodes: seq<Node>, f: Frame, content: string): (m: Match)
    requires f.node < |nodes|
  {
    var n := nodes[f.node];
    if n.kind != Multipart || !f.inBody || n.boundary.None? || f.phase == Epilogue then NotDelimiter
    else MatchDelimiter(content, n.boundary.value)
  }

  /** The innermost open multipart whose delimiter this line is. */
  function FindDelimiter(nodes: seq<Node>, stack: seq<Frame>, content: string): (d: Option<nat>)
    requires forall f :: f in stack ==> f.node < |nodes|
    ensures d.Some? ==> d.value < |stack| && DelimiterOf(nodes, stack[d.value], content) != NotDelimiter
  {
    if stack == [] then None
    else if DelimiterOf(nodes, stack[|stack| - 1], content) != NotDelimiter then Some(|stack| - 1)
    else FindDelimiter(nodes, stack[..|stack| - 1], content)
  }

  // --- one line ---------------------------------------------------------------------------------

  function Count(f: Frame, brLen: nat, contentLen: nat): (g: Frame) {
    if !f.inBody then f
    else if brLen > 0 then f.(lineCount := f.lineCount + 1, lastLen := contentLen)
    else if contentLen > 0 then f.(lineCount := f.lineCount + 1, lastLen := -1)
    else f
  }

  function CountAll(stack: seq<Frame>, brLen: nat, contentLen: nat): (r: seq<Frame>)
    ensures |r| == |stack| && forall i :: 0 <= i < |stack| ==> r[i] == Count(stack[i], brLen, contentLen)
  {
    seq(|stack|, i requires 0 <= i < |stack| => Count(stack[i], brLen, contentLen))
  }

  /** One line: where it starts and ends, its break, and as much of it as was captured. */
  datatype LineSeen = LineSeen(start: nat, end: nat, brLen: nat, raw: string)
  {
    predicate Ok() { start + brLen <= end && |raw| <= end - start }
    function ContentLen(): nat requires Ok() { end - start - brLen }
    predicate Complete() requires Ok() { |raw| == end - start }
  }

  predicate StackNames(c: Core) {
    |c.stack| > 0 && forall f :: f in c.stack ==> f.node < |c.nodes|
  }

  function LineDelimiter(c: Core, line: LineSeen): (d: Option<nat>)
    requires StackNames(c) && line.Ok()
    ensures d.Some? ==> d.value < |c.stack| && line.Complete()
  {
    if |line.raw| >= 2 && line.raw[0] == '-' && line.raw[1] == '-' && line.Complete() then
      FindDelimiter(c.nodes, c.stack, line.raw[..line.ContentLen()])
    else None
  }

  /** A delimiter of the multipart at stack place d: everything above it closes, and a new part may open. */
  function TakeDelimiter(c: Core, d: nat, line: LineSeen, read: HeaderReader): (r: Core)
    requires StackNames(c) && line.Ok() && d < |c.stack| && line.Complete()
    ensures StackNames(r)
  {
    var closing := DelimiterOf(c.nodes, c.stack[d], line.raw[..line.ContentLen()]) == CloseDelimiter;
    var nodes := CloseAbove(c.nodes, c.stack, d, line.start, c.prevBreak, read);
    var stack := CountAll(c.stack[..d + 1], line.brLen, line.ContentLen());
    assert c.stack[d] in c.stack;
    var f := stack[d];
    if closing then Core(nodes, stack[d := f.(phase := Epilogue)], c.budget, line.brLen)
    else OpenChild(nodes, stack[d := f.(phase := Parts)], c.budget, line, read)
  }

  function OpenChild(nodes: seq<Node>, stack: seq<Frame>, budget: int, line: LineSeen, read: HeaderReader): (r: Core)
    requires |stack| > 0 && forall f :: f in stack ==> f.node < |nodes|
    ensures StackNames(r)
  {
    var id := stack[|stack| - 1].node;
    var n := nodes[id];
    if |nodes| < MAX_PARTS && n.depth + 1 < MAX_DEPTH then
      Core(nodes[id := n.(children := n.children + [|nodes|])] + [NewNode(line.end, n.depth + 1, n.info.digest, read)],
           stack + [NewFrame(|nodes|, n.info.digest)], budget, line.brLen)
    else Core(nodes, stack, budget, line.brLen)
  }

  /** A line that is no delimiter: of a body, the empty line after a header block, or a header line. */
  function TakeContent(c: Core, line: LineSeen, read: HeaderReader): (r: Core)
    requires StackNames(c) && line.Ok()
    ensures StackNames(r)
  {
    var stack := CountAll(c.stack, line.brLen, line.ContentLen());
    var k := |stack| - 1;
    var f := stack[k];
    assert c.stack[k] in c.stack;
    var n := c.nodes[f.node];
    if f.inBody then Core(c.nodes, stack, c.budget, line.brLen)
    else if line.ContentLen() == 0 && line.brLen > 0 then
      var after := FinishHeaders(c.nodes[f.node := n.(bodyStart := line.end)], f, line.end, read);
      var own := stack[k := f.(inBody := true, block := "")];
      Core(after.nodes, if after.inner.Some? then own + [after.inner.value] else own, c.budget, line.brLen)
    else if !line.Complete() || |f.block| + |line.raw| > MAX_PART_HEADER_BYTES || |line.raw| > c.budget then
      Core(c.nodes[f.node := n.(headersTruncated := true)], stack, c.budget, line.brLen)
    else Core(c.nodes, stack[k := f.(block := f.block + line.raw)], c.budget - |line.raw|, line.brLen)
  }

  function ProcessLine(c: Core, line: LineSeen, read: HeaderReader): (r: Core)
    requires StackNames(c) && line.Ok()
    ensures StackNames(r)
  {
    match LineDelimiter(c, line)
    case Some(d) => TakeDelimiter(c, d, line, read)
    case None => TakeContent(c, line, read)
  }

  /** How much of the next line is kept: enough to see a delimiter, and of a header line all that is allowed. */
  function CapFor(c: Core): (cap: nat)
    requires |c.stack| > 0
    ensures cap >= CAPTURE
  {
    var f := c.stack[|c.stack| - 1];
    if f.inBody then CAPTURE else Max(CAPTURE, Min(MAX_PART_HEADER_BYTES - |f.block|, c.budget))
  }

  // --- a whole message --------------------------------------------------------------------------

  /** One past the line that starts at `start`: after its LF, or the end of the text. */
  function LineStop(text: string, start: nat): (end: nat)
    requires start < |text|
    ensures start < end <= |text|
    ensures forall i :: start <= i < end - 1 ==> text[i] != '\n'
    ensures end < |text| ==> text[end - 1] == '\n'
    decreases |text| - start
  {
    if text[start] == '\n' || start + 1 == |text| then start + 1 else LineStop(text, start + 1)
  }

  function BreakLen(text: string, start: nat, end: nat): (n: nat)
    requires start <= end <= |text|
    ensures start + n <= end && n <= 2
  {
    if start < end && text[end - 1] == '\n' then (if end - start >= 2 && text[end - 2] == '\r' then 2 else 1) else 0
  }

  function LineOf(text: string, start: nat, end: nat, cap: nat): (line: LineSeen)
    requires start <= end <= |text|
    ensures line.Ok()
  {
    LineSeen(start, end, BreakLen(text, start, end), text[start..start + Min(cap, end - start)])
  }

  /** The scanner after the lines of the text from `start` on. */
  function ScanFrom(c: Core, text: string, start: nat, read: HeaderReader): (r: Core)
    requires StackNames(c) && start <= |text|
    ensures StackNames(r)
    decreases |text| - start
  {
    if start == |text| then c
    else
      var end := LineStop(text, start);
      ScanFrom(ProcessLine(c, LineOf(text, start, end, CapFor(c)), read), text, end, read)
  }

  /** The nodes of a whole message; node 0 is the message itself. */
  function Structure(text: string, read: HeaderReader): (nodes: seq<Node>) {
    var c := ScanFrom(Start(read), text, 0, read);
    CloseAll(c.nodes, c.stack, |text|, read)
  }
}
