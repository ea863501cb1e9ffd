/** The scanner object: what it keeps between chunks is updated in place, line by line. */
module ScannerObject {
  import opened Sets
  import opened Chunks
  import opened MimeScan
  import opened MimeStream

  method MatchLine(content: string, boundary: string) returns (m: Match)
    ensures m == MatchDelimiter(content, boundary)
    ensures m == OpenDelimiter <==> |content| >= 2 && Padded(content[2..], boundary)
    ensures m == CloseDelimiter <==> |content| >= 2 && Padded(content[2..], boundary + "--")
  {
    MatchExact(content, boundary);
    var b := 2 + |boundary|;
    if |content| < b || content[2..b] != boundary { return NotDelimiter; }
    var i, close := b, false;
    if b + 1 < |content| && content[b] == '-' && content[b + 1] == '-' {
      i, close := b + 2, true;
    }
    var from := i;
    while i < |content|
      invariant from <= i <= |content|
      invariant forall k :: from <= k < i ==> content[k] == ' ' || content[k] == '\t'
    {
      if content[i] != ' ' && content[i] != '\t' {
        assert content[from..][i - from] == content[i];
        return NotDelimiter;
      }
      i := i + 1;
    }
    m := if close then CloseDelimiter else OpenDelimiter;
  }

  class StructureScanner {
    var pos: nat
    var lineStart: nat
    var line: string
    var lineLen: nat
    var lineCap: nat
    var last: Option<char>
    var beforeLast: Option<char>
    var prevBreak: nat
    var nodes: seq<Node>
    var stack: seq<Frame>
    var headerBudget: int
    var ended: bool
    const read: HeaderReader

    ghost function Heart(): Core
      reads this
    {
      Core(nodes, stack, headerBudget, prevBreak)
    }

    ghost function Value(): Scanner
      reads this
    {
      Scanner(pos, lineStart, line, lineLen, lineCap, last, beforeLast, Heart())
    }

    constructor (read: HeaderReader)
      ensures !ended && this.read == read && Value() == New(read)
    {
      this.read := read;
      pos, lineStart, line, lineLen, last, beforeLast, prevBreak := 0, 0, "", 0, None, None, 0;
      nodes, stack := [NewNode(0, 0, false, read)], [NewFrame(0, false)];
      headerBudget := MAX_MESSAGE_HEADER_BYTES;
      lineCap := CapFor(Start(read));
      ended := false;
    }

    /** Writing after the end is refused and changes nothing. */
    method Write(chunk: string) returns (ok: bool)
      requires !ended ==> Ok(Value())
      modifies this
      ensures ok == !old(ended) && ended == old(ended)
      ensures ok ==> Ok(Value()) && Value() == WriteFrom(old(Value()), chunk, 0, read)
      ensures !ok ==> Value() == old(Value())
    {
      hide Capture, EndLine, SegmentEnd;
      if ended { return false; }
      var i := 0;
      while i < |chunk|
        invariant i <= |chunk| && !ended && Ok(Value())
        invariant WriteFrom(Value(), chunk, i, read) == WriteFrom(old(Value()), chunk, 0, read)
      {
        var end := SegmentEnd(chunk, i);
        CaptureSegment(chunk[i..end]);
        if chunk[end - 1] == '\n' { FinishLine(true); }
        i := end;
      }
      ok := true;
    }

    method CaptureSegment(seg: string)
      requires Ok(Value())
      modifies this
      ensures Ok(Value()) && Value() == Capture(old(Value()), seg) && ended == old(ended)
      ensures pos == old(pos) + |seg| && lineStart == old(lineStart)
    {
      if |seg| >= 2 {
        beforeLast := Some(seg[|seg| - 2]);
        last := Some(seg[|seg| - 1]);
      } else if |seg| == 1 {
        beforeLast := last;
        last := Some(seg[0]);
      }
      var room := lineCap - lineLen;
      if room > 0 {
        line := line + seg[..Min(room, |seg|)];
      }
      lineLen := lineLen + |seg|;
      pos := pos + |seg|;
    }

    method FinishLine(hasLf: bool)
      requires Ok(Value()) && (hasLf ==> pos > lineStart)
      modifies this
      ensures Ok(Value()) && Value() == EndLine(old(Value()), hasLf, read) && ended == old(ended)
    {
      hide ProcessLine, CapFor;
      var brLen := if !hasLf then 0 else if pos - lineStart >= 2 && beforeLast == Some('\r') then 2 else 1;
      TakeLine(LineSeen(lineStart, pos, brLen, line));
      lineStart, line, lineLen, last, beforeLast := pos, "", 0, None, None;
      lineCap := CapFor(Core(nodes, stack, headerBudget, prevBreak));
    }

    /** Everything but the parts and the header budget. */
    ghost predicate SameLine(s: Scanner)
      reads this
    {
      pos == s.pos && lineStart == s.lineStart && line == s.line && lineLen == s.lineLen && lineCap == s.lineCap &&
      last == s.last && beforeLast == s.beforeLast
    }

    method TakeLine(seen: LineSeen)
      requires StackNames(Heart()) && seen.Ok()
      modifies this
      ensures StackNames(Heart()) && Heart() == ProcessLine(old(Heart()), seen, read)
      ensures SameLine(old(Value())) && ended == old(ended)
    {
      var d := SearchDelimiter(seen);
      if d.Some? {
        TakeDelimiterLine(d.value, seen);
      } else {
        TakeContentLine(seen);
      }
      prevBreak := seen.brLen;
    }

    method SearchDelimiter(seen: LineSeen) returns (d: Option<nat>)
      requires StackNames(Heart()) && seen.Ok()
      ensures d == LineDelimiter(Heart(), seen)
    {
      if !(|seen.raw| >= 2 && seen.raw[0] == '-' && seen.raw[1] == '-' && seen.Complete()) { return None; }
      var content := seen.raw[..seen.ContentLen()];
      var n := |stack|;
      assert stack[..n] == stack;
      while n > 0
        invariant n <= |stack|
        invariant FindDelimiter(nodes, stack[..n], content) == FindDelimiter(nodes, stack, content)
      {
        assert stack[..n][..n - 1] == stack[..n - 1];
        var f := stack[n - 1];
        assert f in stack;
        var node := nodes[f.node];
        n := n - 1;
        if node.kind != Multipart || !f.inBody || node.boundary.None? { continue; }
        var m := MatchLine(content, node.boundary.value);
        if m == NotDelimiter { continue; }
        if f.phase == Epilogue { continue; }
        return Some(n);
      }
      return None;
    }

    method TakeDelimiterLine(d: nat, seen: LineSeen)
      requires StackNames(Heart()) && seen.Ok() && d < |stack| && seen.Complete()
      requires DelimiterOf(nodes, stack[d], seen.raw[..seen.ContentLen()]) != NotDelimiter
      modifies this
      ensures Heart().(prevBreak := seen.brLen) == TakeDelimiter(old(Heart()), d, seen, read)
      ensures SameLine(old(Value())) && ended == old(ended)
    {
      hide CloseAbove, CountAll;
      ghost var before := Heart();
      assert stack[d] in stack;
      var m := MatchLine(seen.raw[..seen.ContentLen()], nodes[stack[d].node].boundary.value);
      CloseDownTo(d, seen.start);
      CountLine(seen.brLen, seen.ContentLen());
      if m == CloseDelimiter {
        stack := stack[d := stack[d].(phase := Epilogue)];
        return;
      }
      stack := stack[d := stack[d].(phase := Parts)];
      var id := stack[d].node;
      var n := nodes[id];
      if |nodes| < MAX_PARTS && n.depth + 1 < MAX_DEPTH {
        var child := |nodes|;
        nodes := nodes[id := n.(children := n.children + [child])]
          + [NewNode(seen.end, n.depth + 1, n.info.digest, read)];
        stack := stack + [NewFrame(child, n.info.digest)];
      }
    }

    method CloseDownTo(d: nat, at: nat)
      requires StackNames(Heart()) && d < |stack|
      modifies this`nodes, this`stack
      ensures nodes == CloseAbove(old(nodes), old(stack), d, at, prevBreak, read) && stack == old(stack)[..d + 1]
      ensures StackNames(Heart())
    {
      hide CloseFrame;
      assert stack[..|stack|] == stack;
      while |stack| - 1 > d
        invariant d < |stack| <= |old(stack)| && stack == old(stack)[..|stack|] && StackNames(Heart())
        invariant CloseAbove(nodes, stack, d, at, prevBreak, read)
                  == CloseAbove(old(nodes), old(stack), d, at, prevBreak, read)
      {
        var f := stack[|stack| - 1];
        assert f in stack;
        stack := stack[..|stack| - 1];
        nodes := CloseFrame(nodes, f, at, prevBreak, read);
      }
    }

    method CountLine(brLen: nat, contentLen: nat)
      modifies this`stack
      ensures stack == CountAll(old(stack), brLen, contentLen)
    {
      for d := 0 to |stack|
        invariant |stack| == |old(stack)|
        invariant forall i :: 0 <= i < d ==> stack[i] == Count(old(stack)[i], brLen, contentLen)
        invariant forall i :: d <= i < |stack| ==> stack[i] == old(stack)[i]
      {
        var f := stack[d];
        if !f.inBody { continue; }
        if brLen > 0 {
          stack := stack[d := f.(lineCount := f.lineCount + 1, lastLen := contentLen)];
        } else if contentLen > 0 {
          stack := stack[d := f.(lineCount := f.lineCount + 1, lastLen := -1)];
        }
      }
    }

    method TakeContentLine(seen: LineSeen)
      requires StackNames(Heart()) && seen.Ok()
      modifies this
      ensures Heart().(prevBreak := seen.brLen) == TakeContent(old(Heart()), seen, read)
      ensures SameLine(old(Value())) && ended == old(ended)
    {
      hide FinishHeaders;
      assert stack[|stack| - 1] in stack;
      CountLine(seen.brLen, seen.ContentLen());
      var k := |stack| - 1;
      var f := stack[k];
      if f.inBody { return; }
      if seen.ContentLen() == 0 && seen.brLen > 0 {
        nodes := nodes[f.node := nodes[f.node].(bodyStart := seen.end)];
        var after := FinishHeaders(nodes, f, seen.end, read);
        nodes := after.nodes;
        stack := stack[k := f.(inBody := true, block := "")];
        if after.inner.Some? { stack := stack + [after.inner.value]; }
        return;
      }
      if !seen.Complete() || |f.block| + |seen.raw| > MAX_PART_HEADER_BYTES || |seen.raw| > headerBudget {
        nodes := nodes[f.node := nodes[f.node].(headersTruncated := true)];
        return;
      }
      stack := stack[k := f.(block := f.block + seen.raw)];
      headerBudget := headerBudget - |seen.raw|;
    }

    /** The whole structure; asked again, the same. */
    method Finish() returns (m: MessageStructure)
      requires !ended ==> Ok(Value())
      modifies this
      ensures ended && m == MessageStructure(nodes, pos)
      ensures !old(ended) ==> m == End(old(Value()), read)
      ensures old(ended) ==> Value() == old(Value())
    {
      hide CloseAtEnd, EndLine;
      if !ended {
        if pos > lineStart { FinishLine(false); }
        ended := true;
        ghost var open := stack;
        assert stack[..|stack|] == stack;
        while |stack| > 0
          invariant ended && |stack| <= |open| && stack == open[..|stack|]
          invariant forall f :: f in stack ==> f.node < |nodes|
          invariant pos == End(old(Value()), read).size
                    && CloseAll(nodes, stack, pos, read) == End(old(Value()), read).nodes
        {
          var f := stack[|stack| - 1];
          stack := stack[..|stack| - 1];
          nodes := CloseAtEnd(nodes, f, pos, read);
        }
        assert stack == [];
      }
      m := MessageStructure(nodes, pos);
    }
  }

  /** A whole stream, chunk by chunk: the structure of the message it carries. */
  method ScanStructure(chunks: seq<string>, read: HeaderReader) returns (m: MessageStructure)
    ensures m == MessageStructure(Structure(Concat(chunks), read), |Concat(chunks)|)
  {
    hide WriteFrom;
    var scanner := new StructureScanner(read);
    assert chunks[0..] == chunks;
    for i := 0 to |chunks|
      invariant !scanner.ended && scanner.read == read && Ok(scanner.Value())
      invariant WriteAll(scanner.Value(), chunks[i..], read) == WriteAll(New(read), chunks, read)
    {
      assert chunks[i..][1..] == chunks[i + 1..];
      var ok := scanner.Write(chunks[i]);
    }
    ChunksDoNotMatter(chunks, read);
    m := scanner.Finish();
  }
}
