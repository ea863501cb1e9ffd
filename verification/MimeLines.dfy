/**
 The scanner line by line: what header lines, an empty line, body lines and delimiter lines make of it,
 whatever parts are open. A line is given with its break, CRLF or a bare LF.
*/
module MimeLines {
  import opened Sets
  import opened MimeScan
  import opened MimeStream
  import MimeProofs

  function Text(lines: seq<string>): (t: string) {
    if lines == [] then "" else lines[0] + Text(lines[1..])
  }

  /** One line and its break. */
  ghost predicate WholeLine(line: string) { OneLine(line) && line[|line| - 1] == '\n' }

  function BreakOf(line: string): (n: nat)
    ensures n <= 2 && n <= |line|
  {
    BreakLen(line, 0, |line|)
  }

  function Content(line: string): (s: string) { line[..|line| - BreakOf(line)] }

  ghost predicate IsDelimiter(line: string, b: string) {
    Delimits(line, b, false) || Delimits(line, b, true)
  }

  lemma DelimiterIsMatched(line: string, b: string)
    requires |line| >= 2 && line[0] == '-' && line[1] == '-'
    ensures IsDelimiter(line, b) <==> MatchDelimiter(line, b) != NotDelimiter
    ensures Delimits(line, b, true) <==> MatchDelimiter(line, b) == CloseDelimiter
    ensures Delimits(line, b, false) <==> MatchDelimiter(line, b) == OpenDelimiter
  {
    MatchExact(line, b);
    assert line[..2] == "--";
  }

  /** A line that is no delimiter of the boundaries around it. */
  ghost predicate BodyLine(line: string, around: set<string>) {
    WholeLine(line) && forall b :: b in around ==> !IsDelimiter(Content(line), b)
  }

  ghost predicate HeaderLine(line: string, around: set<string>) { Content(line) != "" && BodyLine(line, around) }

  ghost predicate EmptyLine(line: string) { WholeLine(line) && Content(line) == "" }

  // --- one more line ----------------------------------------------------------------------------

  /** The scanner after a text whose last line is ended. */
  function After(t: string, read: HeaderReader): (c: Core)
    ensures StackNames(c)
  {
    ScanFrom(Start(read), t, 0, read)
  }

  /** What the next line looks like to the scanner. */
  function Seen(t: string, line: string, cap: nat): (s: LineSeen)
    ensures s.Ok() && s.ContentLen() == |Content(line)|
  {
    LineSeen(|t|, |t| + |line|, BreakOf(line), line[..Min(cap, |line|)])
  }

  lemma NextLineIs(t: string, line: string, read: HeaderReader)
    requires Ended(t) && WholeLine(line)
    ensures var c, u := After(t, read), t + line;
            Ended(u) && After(u, read) == ProcessLine(c, Seen(t, line, CapFor(c)), read)
  {
    hide ScanFrom, ProcessLine, CapFor;
    var c, u := After(t, read), t + line;
    ScanAppend(Start(read), t, line, 0, read);
    var n := Min(CapFor(c), |line|);
    assert u[|t|..|t| + n] == line[..n];
    assert u[|u| - 1] == line[|line| - 1] && (|line| >= 2 ==> u[|u| - 2] == line[|line| - 2]);
    assert LineOf(u, |t|, |u|, CapFor(c)) == Seen(t, line, CapFor(c));
  }

  /** The last line of two texts is the last line of the second, if it has one. */
  lemma BreakJoins(a: string, b: string)
    requires Ended(a) && Ended(b)
    ensures Ended(a + b) && (b != "" ==> BreakOf(a + b) == BreakOf(b))
  {
    var s := a + b;
    if b != "" {
      assert s[|s| - 1] == b[|b| - 1];
      if |b| >= 2 { assert s[|s| - 2] == b[|b| - 2]; } else if a != "" { assert s[|s| - 2] == a[|a| - 1]; }
    } else {
      assert s == a;
    }
  }

  /** The scanner remembers the break of the last line. */
  lemma PrevBreakIs(t: string, read: HeaderReader)
    requires Ended(t) && t != ""
    ensures After(t, read).prevBreak == BreakOf(t)
  {
    hide ScanFrom;
    MimeProofs.StartOk(t, read);
    var ls := MimeProofs.ScanKeeps(Start(read), t, 0, 0, read);
    LastLineBreak(After(t, read), t, ls);
  }

  lemma LastLineBreak(c: Core, t: string, ls: nat)
    requires MimeProofs.CoreInv(c, t, ls, |t|) && Ended(t) && t != ""
    ensures c.prevBreak == BreakOf(t)
  {
    hide MimeProofs.Tree, MimeProofs.FrameOk, MimeProofs.StackOk;
  }

  // --- lines that are no delimiter --------------------------------------------------------------

  /** A frame that looks for delimiters looks for one of these boundaries. */
  ghost predicate Watches(nodes: seq<Node>, f: Frame, around: set<string>) {
    f.node < |nodes| &&
    (f.inBody && f.phase != Epilogue && nodes[f.node].kind == Multipart && nodes[f.node].boundary.Some? ==>
       nodes[f.node].boundary.value in around)
  }

  ghost predicate Guarded(c: Core, around: set<string>) {
    |c.stack| > 0 && forall i :: 0 <= i < |c.stack| ==> Watches(c.nodes, c.stack[i], around)
  }

  lemma {:induction false} NoneFound(nodes: seq<Node>, stack: seq<Frame>, content: string, around: set<string>)
    requires forall i :: 0 <= i < |stack| ==> Watches(nodes, stack[i], around)
    requires |content| >= 2 && content[0] == '-' && content[1] == '-'
    requires forall b :: b in around ==> !IsDelimiter(content, b)
    ensures forall f :: f in stack ==> f.node < |nodes|
    ensures FindDelimiter(nodes, stack, content) == None
    decreases |stack|
  {
    hide MatchDelimiter, IsDelimiter;
    if stack != [] {
      var top := stack[|stack| - 1];
      assert Watches(nodes, top, around);
      if top.node < |nodes| && nodes[top.node].boundary.Some? {
        DelimiterIsMatched(content, nodes[top.node].boundary.value);
      }
      NoneFound(nodes, stack[..|stack| - 1], content, around);
      forall f | f in stack ensures f.node < |nodes| {
        var i :| 0 <= i < |stack| && stack[i] == f;
        assert Watches(nodes, stack[i], around);
      }
    }
  }

  lemma NoDelimiter(c: Core, t: string, line: string, cap: nat, around: set<string>)
    requires StackNames(c) && Guarded(c, around) && BodyLine(line, around)
    ensures LineDelimiter(c, Seen(t, line, cap)) == None
  {
    var seen, content := Seen(t, line, cap), Content(line);
    if |seen.raw| >= 2 && seen.raw[0] == '-' && seen.raw[1] == '-' && seen.Complete() {
      assert seen.raw == line && seen.raw[..seen.ContentLen()] == content;
      assert |content| >= 2 && content[0] == '-' && content[1] == '-';
      NoneFound(c.nodes, c.stack, content, around);
    }
  }

  /** A line that is no delimiter is taken as content. */
  lemma ContentLine(t: string, line: string, around: set<string>, read: HeaderReader)
    requires Ended(t) && BodyLine(line, around) && Guarded(After(t, read), around)
    ensures var c, u := After(t, read), t + line;
            Ended(u) && After(u, read) == TakeContent(c, Seen(t, line, CapFor(c)), read)
  {
    hide After, TakeContent, CapFor, Guarded, IsDelimiter, Seen;
    var c := After(t, read);
    NextLineIs(t, line, read);
    NoDelimiter(c, t, line, CapFor(c), around);
  }

  /** Frames that differ in their line counts only. */
  ghost predicate SameFrame(f: Frame, g: Frame) {
    g == f.(lineCount := g.lineCount, lastLen := g.lastLen)
  }

  /** The frames below the last are as they were. */
  ghost predicate SameBelow(c: Core, d: Core) {
    |d.stack| == |c.stack| > 0 && forall i :: 0 <= i < |c.stack| - 1 ==> SameFrame(c.stack[i], d.stack[i])
  }

  // --- header lines -----------------------------------------------------------------------------

  ghost predicate InHeaders(c: Core, around: set<string>, block: string) {
    Guarded(c, around) && !c.stack[|c.stack| - 1].inBody && c.stack[|c.stack| - 1].block == block
  }

  /** The same nodes, and the same frames but for the block of the last. */
  ghost predicate Collecting(c: Core, d: Core, block: string, used: nat) {
    && d.nodes == c.nodes && SameBelow(c, d) && d.budget == c.budget - used
    && d.stack[|c.stack| - 1] == c.stack[|c.stack| - 1].(block := block)
  }

  lemma StillGuarded(c: Core, d: Core, block: string, used: nat, around: set<string>)
    requires Guarded(c, around) && Collecting(c, d, block, used)
    ensures Guarded(d, around)
  {
    forall i | 0 <= i < |d.stack| ensures Watches(d.nodes, d.stack[i], around) {
      assert Watches(c.nodes, c.stack[i], around);
    }
  }

  lemma HeaderStep(t: string, line: string, around: set<string>, block: string, read: HeaderReader)
    requires Ended(t) && HeaderLine(line, around) && InHeaders(After(t, read), around, block)
    requires |block| + |line| <= MAX_PART_HEADER_BYTES && |line| <= After(t, read).budget
    ensures var c, u := After(t, read), t + line;
            && Ended(u) && InHeaders(After(u, read), around, block + line)
            && Collecting(c, After(u, read), block + line, |line|)
  {
    hide After, FinishHeaders, IsDelimiter, Guarded, Content;
    var c := After(t, read);
    ContentLine(t, line, around, read);
    assert line[..|line|] == line;
    StillGuarded(c, After(t + line, read), block + line, |line|, around);
  }

  lemma TextCons(t: string, lines: seq<string>)
    requires lines != []
    ensures t + Text(lines) == (t + lines[0]) + Text(lines[1..])
  {
  }

  lemma {:induction false} HeaderPhase(t: string, lines: seq<string>, around: set<string>, block: string,
          read: HeaderReader)
    requires Ended(t) && InHeaders(After(t, read), around, block) && forall l :: l in lines ==> HeaderLine(l, around)
    requires |block| + |Text(lines)| <= MAX_PART_HEADER_BYTES && |Text(lines)| <= After(t, read).budget
    ensures var c, u := After(t, read), t + Text(lines);
            && Ended(u) && InHeaders(After(u, read), around, block + Text(lines))
            && Collecting(c, After(u, read), block + Text(lines), |Text(lines)|)
    decreases |lines|
  {
    hide After, HeaderLine, Ended, InHeaders;
    if lines == [] {
      assert t + "" == t && block + "" == block;
      HeadersSoFar(After(t, read), around, block);
    } else {
      HeaderStep(t, lines[0], around, block, read);
      TextCons(t, lines);
      TextCons(block, lines);
      HeaderPhase(t + lines[0], lines[1..], around, block + lines[0], read);
    }
  }

  lemma HeadersSoFar(c: Core, around: set<string>, block: string)
    requires InHeaders(c, around, block)
    ensures Collecting(c, c, block, 0)
  {
  }

  /** The empty line ends a header block, which may open a message of its own. */
  lemma EmptyLineStep(t: string, line: string, around: set<string>, block: string, read: HeaderReader)
    requires Ended(t) && EmptyLine(line) && InHeaders(After(t, read), around, block)
    ensures var c, u := After(t, read), t + line;
            var d, f, k := After(u, read), c.stack[|c.stack| - 1], |c.stack| - 1;
            && f.node < |c.nodes|
            && var after := FinishHeaders(c.nodes[f.node := c.nodes[f.node].(bodyStart := |u|)], f, |u|, read);
               && Ended(u) && d.nodes == after.nodes && d.budget == c.budget
               && |d.stack| == (if after.inner.Some? then k + 2 else k + 1)
               && (forall i :: 0 <= i < k ==> SameFrame(c.stack[i], d.stack[i]))
               && d.stack[k] == f.(inBody := true, block := "")
               && (after.inner.Some? ==> d.stack[k + 1] == after.inner.value)
  {
    hide After, FinishHeaders, CapFor, Guarded;
    assert forall b :: b in around ==> !IsDelimiter("", b);
    ContentLine(t, line, around, read);
    assert After(t, read).stack[|After(t, read).stack| - 1] in After(t, read).stack;
  }

  // --- body lines -------------------------------------------------------------------------------

  /** The same nodes and frames, but for line counts. */
  ghost predicate SameButCounts(c: Core, d: Core) {
    d.nodes == c.nodes && d.budget == c.budget && |d.stack| == |c.stack| &&
    forall i :: 0 <= i < |c.stack| ==> SameFrame(c.stack[i], d.stack[i])
  }

  lemma CountedGuarded(c: Core, d: Core, around: set<string>)
    requires Guarded(c, around) && SameButCounts(c, d)
    ensures Guarded(d, around)
  {
    forall i | 0 <= i < |d.stack| ensures Watches(d.nodes, d.stack[i], around) {
      assert Watches(c.nodes, c.stack[i], around);
    }
  }

  lemma {:induction false} BodyPhase(t: string, lines: seq<string>, around: set<string>, read: HeaderReader)
    requires Ended(t) && Guarded(After(t, read), around) && forall l :: l in lines ==> BodyLine(l, around)
    requires var c := After(t, read); c.stack[|c.stack| - 1].inBody
    ensures var c, u := After(t, read), t + Text(lines);
            Ended(u) && SameButCounts(c, After(u, read))
    decreases |lines|
  {
    hide After, BodyLine, Ended, Guarded, SameButCounts;
    if lines == [] {
      assert t + "" == t;
      NothingAdded(After(t, read));
    } else {
      var line, rest := lines[0], lines[1..];
      BodyStep(t, line, around, read);
      TextCons(t, lines);
      BodyPhase(t + line, rest, around, read);
      CountedTwice(After(t, read), After(t + line, read), After(t + Text(lines), read));
    }
  }

  lemma NothingAdded(c: Core)
    ensures SameButCounts(c, c)
  {
  }

  lemma CountedTwice(c: Core, d: Core, e: Core)
    requires SameButCounts(c, d) && SameButCounts(d, e)
    ensures SameButCounts(c, e)
  {
  }

  lemma BodyStep(t: string, line: string, around: set<string>, read: HeaderReader)
    requires Ended(t) && Guarded(After(t, read), around) && BodyLine(line, around)
    requires var c := After(t, read); c.stack[|c.stack| - 1].inBody
    ensures var c, d := After(t, read), After(t + line, read);
            && Ended(t + line) && SameButCounts(c, d) && Guarded(d, around) && d.stack[|d.stack| - 1].inBody
  {
    hide After, CapFor, FinishHeaders, Guarded, IsDelimiter, BreakOf;
    ContentLine(t, line, around, read);
    var c, d := After(t, read), After(t + line, read);
    assert d.stack == CountAll(c.stack, BreakOf(line), |Content(line)|);
    assert c.stack[|c.stack| - 1] in c.stack;
    CountedGuarded(c, d, around);
  }

  // --- delimiter lines --------------------------------------------------------------------------

  /** A delimiter line of the boundary, as the scanner keeps it. */
  ghost predicate DelimiterLine(line: string, b: string, closing: bool) {
    WholeLine(line) && |line| <= CAPTURE && Delimits(Content(line), b, closing)
  }

  lemma DelimiterStarts(content: string, b: string, closing: bool)
    requires Delimits(content, b, closing)
    ensures |content| >= 2 && content[0] == '-' && content[1] == '-'
    ensures MatchDelimiter(content, b) == (if closing then CloseDelimiter else OpenDelimiter)
  {
    assert content[..2][0] == '-' && content[..2][1] == '-';
    MatchExact(content, b);
  }

  /** A multipart is open at place k, and the parts above it look for no delimiter. */
  ghost predicate Awaiting(c: Core, k: nat, b: string) {
    && StackNames(c) && k < |c.stack|
    && c.stack[k].inBody && c.stack[k].phase != Epilogue && c.stack[k].node < |c.nodes|
    && c.nodes[c.stack[k].node].kind == Multipart && c.nodes[c.stack[k].node].boundary == Some(b)
    && forall i :: k < i < |c.stack| ==> Deaf(c.nodes, c.stack[i])
  }

  ghost predicate Deaf(nodes: seq<Node>, f: Frame) {
    f.node < |nodes| && (nodes[f.node].kind != Multipart || f.phase == Epilogue || !f.inBody)
  }

  lemma {:induction false} FindsOwn(nodes: seq<Node>, stack: seq<Frame>, k: nat, content: string)
    requires (forall f :: f in stack ==> f.node < |nodes|) && k < |stack| && stack[k].node < |nodes|
    requires DelimiterOf(nodes, stack[k], content) != NotDelimiter
    requires forall i :: k < i < |stack| ==> Deaf(nodes, stack[i])
    ensures FindDelimiter(nodes, stack, content) == Some(k)
    decreases |stack|
  {
    hide DelimiterOf;
    if |stack| > k + 1 {
      assert DelimiterOf(nodes, stack[|stack| - 1], content) == NotDelimiter by {
        DeafIsDeaf(nodes, stack[|stack| - 1], content);
      }
      FindsOwn(nodes, stack[..|stack| - 1], k, content);
    }
  }

  lemma DeafIsDeaf(nodes: seq<Node>, f: Frame, content: string)
    requires Deaf(nodes, f)
    ensures DelimiterOf(nodes, f, content) == NotDelimiter
  {
  }

  lemma DelimiterStep(t: string, line: string, k: nat, b: string, closing: bool, read: HeaderReader)
    requires Ended(t) && Awaiting(After(t, read), k, b) && DelimiterLine(line, b, closing)
    ensures var c, u, seen := After(t, read), t + line, Seen(t, line, |line|);
            && Ended(u) && seen.Complete() && seen.raw[..seen.ContentLen()] == Content(line)
            && After(u, read) == TakeDelimiter(c, k, seen, read)
            && (DelimiterOf(c.nodes, c.stack[k], Content(line)) == CloseDelimiter <==> closing)
  {
    hide After, TakeDelimiter, MatchDelimiter, Delimits;
    DelimiterStarts(Content(line), b, closing);
    DelimiterIsMatched(Content(line), b);
    var c, seen, content := After(t, read), Seen(t, line, |line|), Content(line);
    NextLineIs(t, line, read);
    assert Seen(t, line, CapFor(c)) == seen && seen.raw == line && seen.raw[..seen.ContentLen()] == content;
    FindsOwn(c.nodes, c.stack, k, content);
  }

  /** What a delimiter of the multipart at place k does, once what is above it has been closed. */
  lemma TakesDelimiter(c: Core, k: nat, line: LineSeen, read: HeaderReader)
    requires StackNames(c) && line.Ok() && line.Complete() && k < |c.stack|
    ensures var nodes := CloseAbove(c.nodes, c.stack, k, line.start, c.prevBreak, read);
            var stack := CountAll(c.stack[..k + 1], line.brLen, line.ContentLen());
            && |c.nodes| <= |nodes| && (forall f :: f in stack ==> f.node < |nodes|)
            && TakeDelimiter(c, k, line, read) ==
               if DelimiterOf(c.nodes, c.stack[k], line.raw[..line.ContentLen()]) == CloseDelimiter
               then Core(nodes, stack[k := stack[k].(phase := Epilogue)], c.budget, line.brLen)
               else OpenChild(nodes, stack[k := stack[k].(phase := Parts)], c.budget, line, read)
  {
    hide CloseAbove, DelimiterOf, OpenChild;
    var stack := CountAll(c.stack[..k + 1], line.brLen, line.ContentLen());
    forall f | f in stack ensures f.node < |c.nodes| {
      var i :| 0 <= i < |stack| && stack[i] == f;
      assert c.stack[i] in c.stack;
    }
    forall f | f in stack[k := stack[k].(phase := Parts)] ensures f.node < |c.nodes| {
      var i :| 0 <= i < |stack| && stack[k := stack[k].(phase := Parts)][i] == f;
      assert stack[i] in stack;
    }
  }
}
