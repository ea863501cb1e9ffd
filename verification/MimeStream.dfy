/** The structure scanner as it is fed: chunks of any size in, the tree of the whole message out. */
module MimeStream {
  import opened Sets
  import opened Chunks
  import opened MimeScan

  /** Between calls: how much is read, and what is kept of the line not yet ended. */
  datatype Scanner = Scanner(
    pos: nat, lineStart: nat, line: string, lineLen: nat, lineCap: nat,
    last: Option<char>, beforeLast: Option<char>, core: Core)

  predicate Ok(s: Scanner) {
    StackNames(s.core) && s.lineStart <= s.pos && s.lineLen == s.pos - s.lineStart && |s.line| <= s.lineLen
  }

  function New(read: HeaderReader): (s: Scanner)
    ensures Ok(s)
  {
    Scanner(0, 0, "", 0, CapFor(Start(read)), None, None, Start(read))
  }

  /** Part of a line: its last two octets are remembered, and the text itself up to the cap. */
  function Capture(s: Scanner, seg: string): (r: Scanner)
    requires Ok(s)
    ensures Ok(r)
  {
    var room := s.lineCap - s.lineLen;
    s.(last := if |seg| >= 1 then Some(seg[|seg| - 1]) else s.last,
       beforeLast := if |seg| >= 2 then Some(seg[|seg| - 2]) else if |seg| == 1 then s.last else s.beforeLast,
       line := if room > 0 then s.line + seg[..Min(room, |seg|)] else s.line,
       lineLen := s.lineLen + |seg|,
       pos := s.pos + |seg|)
  }

  function EndLine(s: Scanner, hasLf: bool, read: HeaderReader): (r: Scanner)
    requires Ok(s) && (hasLf ==> s.pos > s.lineStart)
    ensures Ok(r) && r.lineStart == r.pos == s.pos
  {
    var brLen := if !hasLf then 0 else if s.pos - s.lineStart >= 2 && s.beforeLast == Some('\r') then 2 else 1;
    var core := ProcessLine(s.core, LineSeen(s.lineStart, s.pos, brLen, s.line), read);
    Scanner(s.pos, s.pos, "", 0, CapFor(core), None, None, core)
  }

  /** One past the next LF of the chunk, or the chunk's end. */
  function SegmentEnd(chunk: string, i: nat): (end: nat)
    requires i < |chunk|
    ensures i < end <= |chunk|
  {
    LineStop(chunk, i)
  }

  function WriteFrom(s: Scanner, chunk: string, i: nat, read: HeaderReader): (r: Scanner)
    requires Ok(s) && i <= |chunk|
    ensures Ok(r)
    decreases |chunk| - i
  {
    if i == |chunk| then s
    else
      var end := SegmentEnd(chunk, i);
      var kept := Capture(s, chunk[i..end]);
      WriteFrom(if chunk[end - 1] == '\n' then EndLine(kept, true, read) else kept, chunk, end, read)
  }

  function WriteAll(s: Scanner, chunks: seq<string>, read: HeaderReader): (r: Scanner)
    requires Ok(s)
    ensures Ok(r)
    decreases |chunks|
  {
    if chunks == [] then s else WriteAll(WriteFrom(s, chunks[0], 0, read), chunks[1..], read)
  }

  datatype MessageStructure = MessageStructure(nodes: seq<Node>, size: nat)

  function End(s: Scanner, read: HeaderReader): (m: MessageStructure)
    requires Ok(s)
  {
    var r := if s.pos > s.lineStart then EndLine(s, false, read) else s;
    MessageStructure(CloseAll(r.core.nodes, r.core.stack, r.pos, read), r.pos)
  }

  // --- the lines of a text, one at a time -------------------------------------------------------

  ghost predicate Ended(t: string) { t == "" || t[|t| - 1] == '\n' }

  ghost predicate OneLine(line: string) {
    line != "" && forall i :: 0 <= i < |line| - 1 ==> line[i] != '\n'
  }

  lemma {:induction false} LineStopOf(t: string, start: nat, end: nat)
    requires start < end <= |t| && (forall i :: start <= i < end - 1 ==> t[i] != '\n')
             && (end == |t| || t[end - 1] == '\n')
    ensures LineStop(t, start) == end
    decreases end - start
  {
    if t[start] != '\n' && start + 1 < |t| { LineStopOf(t, start + 1, end); }
  }

  /** A line after a text that ends with one is read last, with the text's own lines read as before. */
  lemma {:induction false} ScanAppend(c: Core, t: string, line: string, start: nat, read: HeaderReader)
    requires StackNames(c) && start <= |t| && Ended(t) && OneLine(line)
    ensures var before := ScanFrom(c, t, start, read);
            var u := t + line;
            ScanFrom(c, u, start, read) == ProcessLine(before, LineOf(u, |t|, |u|, CapFor(before)), read)
    decreases |t| - start
  {
    hide ProcessLine, CapFor;
    var u := t + line;
    if start == |t| {
      LineStopOf(u, start, |u|);
    } else {
      var end := LineStop(t, start);
      LineStopOf(u, start, end);
      var next := ProcessLine(c, LineOf(t, start, end, CapFor(c)), read);
      LineOfPrefix(t, line, start, end, CapFor(c));
      ScanAppend(next, t, line, end, read);
    }
  }

  lemma LineOfPrefix(t: string, x: string, start: nat, end: nat, cap: nat)
    requires start <= end <= |t|
    ensures LineOf(t + x, start, end, cap) == LineOf(t, start, end, cap)
  {
    var n := start + Min(cap, end - start);
    assert (t + x)[start..n] == t[start..n];
  }

  // --- the scanner follows the text -------------------------------------------------------------

  /** The scanner has read the ended lines of `done` and then `part` of a line. */
  ghost predicate Follows(s: Scanner, done: string, part: string, read: HeaderReader) {
    && Ended(done)
    && s.core == ScanFrom(Start(read), done, 0, read)
    && s.lineCap == CapFor(s.core)
    && s.lineStart == |done| && s.lineLen == |part| && s.pos == |done| + |part|
    && s.line == part[..Min(s.lineCap, |part|)]
    && s.last == FromEnd(part, 1)
    && s.beforeLast == FromEnd(part, 2)
  }

  ghost function FromEnd(part: string, n: nat): (c: Option<char>)
    requires n > 0
  {
    if |part| >= n then Some(part[|part| - n]) else None
  }

  lemma LastTwo(part: string, seg: string)
    ensures FromEnd(part + seg, 1) == if |seg| >= 1 then Some(seg[|seg| - 1]) else FromEnd(part, 1)
    ensures FromEnd(part + seg, 2)
         == if |seg| >= 2 then Some(seg[|seg| - 2]) else if |seg| == 1 then FromEnd(part, 1) else FromEnd(part, 2)
  {
  }

  lemma KeptSoFar(part: string, seg: string, cap: nat)
    ensures (part + seg)[..Min(cap, |part| + |seg|)]
         == part[..Min(cap, |part|)] + (if cap > |part| then seg[..Min(cap - |part|, |seg|)] else "")
  {
    if cap > |part| {
      assert part[..|part|] == part;
    } else {
      assert part[..cap] + "" == part[..cap];
    }
  }

  lemma CaptureFollows(s: Scanner, done: string, part: string, seg: string, read: HeaderReader)
    requires Ok(s) && Follows(s, done, part, read)
    ensures Follows(Capture(s, seg), done, part + seg, read)
    ensures Capture(s, seg).pos == s.pos + |seg| && Capture(s, seg).lineStart == s.lineStart
  {
    hide ScanFrom, CapFor, Min, Ended, FromEnd;
    KeptSoFar(part, seg, s.lineCap);
    LastTwo(part, seg);
    assert s.lineCap <= s.lineLen ==> s.line + "" == s.line;
  }

  /** The line handed on is the line of the text. */
  lemma LineHandedOn(s: Scanner, done: string, part: string, hasLf: bool)
    requires OneLine(part) && hasLf == (part[|part| - 1] == '\n')
    requires s.lineStart == |done| && s.pos == |done| + |part| && s.line == part[..Min(s.lineCap, |part|)]
    requires s.beforeLast == FromEnd(part, 2)
    ensures var brLen := if !hasLf then 0 else if s.pos - s.lineStart >= 2 && s.beforeLast == Some('\r') then 2 else 1;
            LineSeen(s.lineStart, s.pos, brLen, s.line) == LineOf(done + part, |done|, |done + part|, s.lineCap)
  {
    var u, n := done + part, Min(s.lineCap, |part|);
    assert u[|u| - 1] == part[|part| - 1] && (|part| >= 2 ==> u[|u| - 2] == part[|part| - 2]);
    assert u[|done|..|done| + n] == part[..n];
  }

  lemma EndLineFollows(s: Scanner, done: string, part: string, hasLf: bool, read: HeaderReader)
    requires Ok(s) && Follows(s, done, part, read) && OneLine(part) && hasLf == (part[|part| - 1] == '\n')
    ensures var r := EndLine(s, hasLf, read);
            && r.core == ScanFrom(Start(read), done + part, 0, read)
            && r.pos == |done + part|
            && (hasLf ==> Follows(r, done + part, "", read))
  {
    hide ProcessLine, CapFor, ScanFrom, LineOf;
    ScanAppend(Start(read), done, part, 0, read);
    LineHandedOn(s, done, part, hasLf);
    assert (done + part)[|done + part| - 1] == part[|part| - 1];
  }

  /** Where the scanner is after some text: its ended lines, and the rest. */
  ghost predicate At(s: Scanner, done: string, part: string, t: string, read: HeaderReader) {
    Ok(s) && Follows(s, done, part, read) && t == done + part && forall i :: 0 <= i < |part| ==> part[i] != '\n'
  }

  lemma SegmentJoins(part: string, chunk: string, i: nat)
    requires i < |chunk| && forall k :: 0 <= k < |part| ==> part[k] != '\n'
    ensures var end := SegmentEnd(chunk, i);
            var all := part + chunk[i..end];
            && OneLine(all) && all[|all| - 1] == chunk[end - 1]
            && (chunk[end - 1] != '\n' ==> forall k :: 0 <= k < |all| ==> all[k] != '\n')
  {
  }

  lemma {:induction false} WriteFollows(s: Scanner, done: string, part: string, t: string, chunk: string, i: nat,
          read: HeaderReader)
      returns (done': string, part': string)
    requires At(s, done, part, t, read) && i <= |chunk|
    ensures At(WriteFrom(s, chunk, i, read), done', part', t + chunk[i..], read)
    decreases |chunk| - i
  {
    hide Follows, Capture, EndLine, SegmentEnd, OneLine;
    if i == |chunk| {
      assert t + chunk[i..] == t;
      return done, part;
    }
    var end := SegmentEnd(chunk, i);
    var seg := chunk[i..end];
    SegmentJoins(part, chunk, i);
    CaptureFollows(s, done, part, seg, read);
    var kept, all := Capture(s, seg), part + seg;
    assert t + seg == done + all;
    assert (t + seg) + chunk[end..] == t + chunk[i..];
    if chunk[end - 1] == '\n' {
      EndLineFollows(kept, done, all, true, read);
      assert (done + all) + "" == t + seg;
      done', part' := WriteFollows(EndLine(kept, true, read), done + all, "", t + seg, chunk, end, read);
    } else {
      done', part' := WriteFollows(kept, done, all, t + seg, chunk, end, read);
    }
  }

  lemma {:induction false} WriteAllFollows(s: Scanner, done: string, part: string, t: string, chunks: seq<string>,
          read: HeaderReader)
      returns (done': string, part': string)
    requires At(s, done, part, t, read)
    ensures At(WriteAll(s, chunks, read), done', part', t + Concat(chunks), read)
    decreases |chunks|
  {
    hide Follows, WriteFrom;
    if chunks == [] {
      assert t + Concat(chunks) == t;
      return done, part;
    }
    var chunk := chunks[0];
    var d, p := WriteFollows(s, done, part, t, chunk, 0, read);
    assert chunk[0..] == chunk;
    assert (t + chunk) + Concat(chunks[1..]) == t + Concat(chunks);
    done', part' := WriteAllFollows(WriteFrom(s, chunk, 0, read), d, p, t + chunk, chunks[1..], read);
  }

  /** The structure a message gets depends on its octets alone, however they were cut into chunks. */
  lemma ChunksDoNotMatter(chunks: seq<string>, read: HeaderReader)
    ensures End(WriteAll(New(read), chunks, read), read)
         == MessageStructure(Structure(Concat(chunks), read), |Concat(chunks)|)
  {
    hide ScanFrom, CloseAll, WriteAll, EndLine;
    var t := Concat(chunks);
    assert "" + t == t;
    NewFollows(read);
    var done, part := WriteAllFollows(New(read), "", "", "", chunks, read);
    var s := WriteAll(New(read), chunks, read);
    if part == "" {
      assert t == done;
    } else {
      EndLineFollows(s, done, part, false, read);
    }
  }

  lemma NewFollows(read: HeaderReader)
    ensures At(New(read), "", "", "", read)
  {
  }
}
