/**
 What FETCH sends of a message (apps/imap/src/fetch.ts, apps/imap/src/content.ts): which octets a section
 names, and how they are streamed out of a blob that arrives in chunks. A literal announces its size
 before its octets, so the two must agree.
*/
module Fetch {
  import opened Sets
  import opened Chunks
  import opened MimeScan
  import opened MimeProofs
  import opened ScannerObject

  // --- part addressing --------------------------------------------------------------------------

  function MessagePart(nodes: seq<Node>, m: Id, n: nat): (r: Option<Id>)
    requires m < |nodes|
  {
    if nodes[m].kind == Multipart then (if 0 < n <= |nodes[m].children| then Some(nodes[m].children[n - 1]) else None)
    else if n == 1 then Some(m) else None
  }

  function SubPart(nodes: seq<Node>, k: Id, n: nat): (r: Option<Id>)
    requires k < |nodes| && (nodes[k].message.Some? ==> nodes[k].message.value < |nodes|)
  {
    if nodes[k].kind == Multipart then (if 0 < n <= |nodes[k].children| then Some(nodes[k].children[n - 1]) else None)
    else if nodes[k].kind == Message && nodes[k].message.Some? then MessagePart(nodes, nodes[k].message.value, n)
    else None
  }

  /** A structure as the scanner gives it: what is below a node exists, and a multipart encloses no message. */
  ghost predicate Linked(nodes: seq<Node>) {
    && |nodes| > 0
    && (forall k :: 0 <= k < |nodes| ==> KindOk(nodes[k]))
    && (forall k, i :: 0 <= k < |nodes| && 0 <= i < |Below(nodes[k])| ==> Below(nodes[k])[i] < |nodes|)
  }

  lemma MessageLinked(nodes: seq<Node>, k: Id)
    requires Linked(nodes) && k < |nodes| && nodes[k].message.Some?
    ensures nodes[k].message.value < |nodes|
  {
    assert Below(nodes[k])[0] == nodes[k].message.value;
  }

  lemma MessagePartLinked(nodes: seq<Node>, m: Id, n: nat)
    requires Linked(nodes) && m < |nodes| && MessagePart(nodes, m, n).Some?
    ensures MessagePart(nodes, m, n).value < |nodes|
  {
    if nodes[m].kind == Multipart { assert Below(nodes[m])[n - 1] == nodes[m].children[n - 1]; }
  }

  lemma SubPartLinked(nodes: seq<Node>, k: Id, n: nat)
    requires Linked(nodes) && k < |nodes| && (nodes[k].message.Some? ==> nodes[k].message.value < |nodes|)
    requires SubPart(nodes, k, n).Some?
    ensures SubPart(nodes, k, n).value < |nodes|
  {
    if nodes[k].kind == Multipart {
      MessagePartLinked(nodes, k, n);
    } else {
      MessagePartLinked(nodes, nodes[k].message.value, n);
    }
  }

  /** The node a part path names, going down from k. */
  function Descend(nodes: seq<Node>, k: Id, path: seq<nat>): (r: Option<Id>)
    requires Linked(nodes) && k < |nodes|
    ensures r.Some? ==> r.value < |nodes|
    decreases |path|
  {
    if path == [] then Some(k)
    else
      assert nodes[k].message.Some? ==> nodes[k].message.value < |nodes| by {
        if nodes[k].message.Some? { MessageLinked(nodes, k); }
      }
      match SubPart(nodes, k, path[0])
      case None => None
      case Some(id) => assert id < |nodes| by { SubPartLinked(nodes, k, path[0]); } Descend(nodes, id, path[1..])
  }

  function Resolved(nodes: seq<Node>, path: seq<nat>): (r: Option<Id>)
    requires Linked(nodes)
    ensures r.Some? ==> r.value < |nodes|
  {
    if path == [] then Some(0)
    else
      match MessagePart(nodes, 0, path[0])
      case None => None
      case Some(id) => assert id < |nodes| by { MessagePartLinked(nodes, 0, path[0]); } Descend(nodes, id, path[1..])
  }

  method ResolvePart(nodes: seq<Node>, path: seq<nat>) returns (r: Option<Id>)
    requires Linked(nodes)
    ensures r == Resolved(nodes, path)
  {
    if path == [] { return Some(0); }
    r := MessagePart(nodes, 0, path[0]);
    if r.Some? { MessagePartLinked(nodes, 0, path[0]); }
    var i := 1;
    while i < |path| && r.Some?
      invariant 1 <= i <= |path|
      invariant r.Some? ==> r.value < |nodes|
      invariant Resolved(nodes, path) == if r.Some? then Descend(nodes, r.value, path[i..]) else None
    {
      var k := r.value;
      if nodes[k].message.Some? { MessageLinked(nodes, k); }
      assert path[i..][1..] == path[i + 1..];
      r := SubPart(nodes, k, path[i]);
      if r.Some? { SubPartLinked(nodes, k, path[i]); }
      i := i + 1;
    }
  }

  // --- sections ---------------------------------------------------------------------------------

  datatype SectionText = Whole | Mime | Header | Text | Fields(names: seq<string>, except: bool)

  datatype Section = Section(part: seq<nat>, text: SectionText)

  datatype Span = Nil | Range(start: nat, end: nat) | Bytes(data: string)

  /** The chosen header fields of a block, as HEADER.FIELDS sends them. */
  type FieldFilter = (string, seq<string>, bool) -> string

  /** The octets a section names; Nil when there is no such part, or it has no such text. */
  function SectionSpan(root: Option<seq<Node>>, size: nat, section: Section, filter: FieldFilter): (s: Span)
    requires root.Some? ==> Linked(root.value)
  {
    if section.part == [] && section.text == Whole then Range(0, size)
    else if root.None? then Nil
    else
      var nodes := root.value;
      match Resolved(nodes, section.part)
      case None => Nil
      case Some(id) =>
        var n := nodes[id];
        match section.text
        case Whole => Range(n.bodyStart, n.bodyEnd)
        case Mime => Range(n.headerStart, n.bodyStart)
        case _ =>
          var enclosed := if section.part == [] then Some(0) else if n.kind == Message then n.message else None;
          if enclosed.None? then Nil
          else
            assert enclosed.value < |nodes| by { if section.part != [] { MessageLinked(nodes, id); } }
            var m := nodes[enclosed.value];
            match section.text
            case Header => Range(m.headerStart, m.bodyStart)
            case Text => Range(m.bodyStart, m.bodyEnd)
            case Fields(names, except) => Bytes(filter(m.headers, names, except))
            case _ => Nil
  }

  lemma StructureLinked(t: string, read: HeaderReader)
    ensures Linked(Structure(t, read))
  {
    hide Structure;
    StructureSound(t, read);
    var nodes := Structure(t, read);
    forall k, i | 0 <= k < |nodes| && 0 <= i < |Below(nodes[k])| ensures Below(nodes[k])[i] < |nodes| {
      assert WellPlaced(nodes, k, i);
    }
  }

  /** Whatever the message and the section, a range it names lies inside the message. */
  lemma SpanInside(t: string, read: HeaderReader, section: Section, filter: FieldFilter)
    ensures Linked(Structure(t, read))
    ensures var span := SectionSpan(Some(Structure(t, read)), |t|, section, filter);
            span.Range? ==> span.start <= span.end <= |t|
  {
    hide Structure, Resolved;
    StructureLinked(t, read);
    StructureSound(t, read);
    var nodes := Structure(t, read);
    if Resolved(nodes, section.part).Some? {
      var id := Resolved(nodes, section.part).value;
      assert Sound(nodes[id], t, |t|);
      if nodes[id].message.Some? {
        MessageLinked(nodes, id);
        assert Sound(nodes[nodes[id].message.value], t, |t|);
      }
      assert Sound(nodes[0], t, |t|);
    }
  }

  // --- streaming --------------------------------------------------------------------------------

  datatype Partial = Partial(offset: nat, length: nat)

  /** The octets from a to b, as far as there are any. */
  function Slice(w: string, a: nat, b: nat): (r: string) {
    if a < b && a < |w| then w[a..Min(b, |w|)] else ""
  }

  function Cut(w: string, partial: Option<Partial>): (r: string) {
    match partial
    case None => w
    case Some(p) => Slice(w, p.offset, p.offset + p.length)
  }

  /** The chunks of a stream that hold the octets from start to end; reading stops once they are all sent. */
  method CopyRange(chunks: seq<string>, start: nat, end: nat) returns (out: seq<string>)
    requires start < end
    ensures Concat(out) == Slice(Concat(chunks), start, end)
  {
    hide Slice;
    out := [];
    var pos := 0;
    SliceNothing(start, end);
    for i := 0 to |chunks|
      invariant pos == |Concat(chunks[..i])| && pos < end
      invariant Concat(out) == Slice(Concat(chunks[..i]), start, end)
    {
      var chunk, from := chunks[i], pos;
      pos := pos + |chunk|;
      assert chunks[..i + 1] == chunks[..i] + [chunk];
      ConcatAppend(chunks[..i], chunk);
      var a, b := Max(0, start - from), Min(|chunk|, end - from);
      SliceGrows(Concat(chunks[..i]), chunk, start, end);
      if pos <= start { continue; }
      if b > a {
        ConcatAppend(out, chunk[a..b]);
        out := out + [chunk[a..b]];
      }
      if pos >= end {
        ConcatSplit(chunks, i + 1);
        SliceDone(Concat(chunks[..i + 1]), Concat(chunks[i + 1..]), start, end);
        return;
      }
    }
    assert chunks[..|chunks|] == chunks;
  }

  lemma SliceNothing(start: nat, end: nat)
    ensures Slice("", start, end) == ""
  {
  }

  /** What one more chunk adds to the octets from start to end. */
  lemma SliceGrows(x: string, chunk: string, start: nat, end: nat)
    requires |x| < end && start < end
    ensures var a, b := Max(0, start - |x|), Min(|chunk|, end - |x|);
            Slice(x + chunk, start, end) == if b > a then Slice(x, start, end) + chunk[a..b] else Slice(x, start, end)
  {
    var stop := Min(end, |x| + |chunk|);
    if start < |x| {
      assert (x + chunk)[start..stop] == x[start..] + chunk[..stop - |x|];
    } else if start < stop {
      assert (x + chunk)[start..stop] == chunk[start - |x|..stop - |x|];
    }
  }

  lemma SliceDone(x: string, y: string, start: nat, end: nat)
    requires end <= |x|
    ensures Slice(x + y, start, end) == Slice(x, start, end)
  {
    if start < end { assert (x + y)[start..end] == x[start..end]; }
  }

  method BlobRange(chunks: seq<string>, start: nat, end: nat) returns (out: seq<string>)
    ensures Concat(out) == Slice(Concat(chunks), start, end)
  {
    if end <= start { return []; }
    out := CopyRange(chunks, start, end);
  }

  method SliceStream(chunks: seq<string>, offset: nat, length: nat) returns (out: seq<string>)
    ensures Concat(out) == Slice(Concat(chunks), offset, offset + length)
  {
    if length == 0 { return []; }
    out := CopyRange(chunks, offset, offset + length);
  }

  /** A literal: the size it announces, and the chunks sent after it. */
  datatype Literal = Literal(size: nat, data: seq<string>)

  /** Announced and sent agree, and what is sent is w. */
  ghost predicate Sends(d: Literal, w: string) {
    Concat(d.data) == w && d.size == |w|
  }

  lemma CutRange(t: string, start: nat, end: nat, p: Partial)
    requires start <= end <= |t|
    ensures var from := Min(end, start + p.offset);
            var upTo := Min(end, from + p.length);
            && Slice(t, from, upTo) == Cut(t[start..end], Some(p))
            && upTo - from == |Cut(t[start..end], Some(p))|
  {
    var from := Min(end, start + p.offset);
    var upTo := Min(end, from + p.length);
    SliceInside(t, from, upTo);
    CutBytes(t[start..end], p);
    SliceOfSlice(t, start, end, from, upTo);
  }

  lemma SliceOfSlice(t: string, start: nat, end: nat, a: nat, b: nat)
    requires start <= a <= b <= end <= |t|
    ensures t[a..b] == t[start..end][a - start..b - start]
  {
    var inner := t[start..end][a - start..b - start];
    forall k | 0 <= k < b - a ensures t[a..b][k] == inner[k] {
      assert inner[k] == t[start..end][a - start + k] == t[a + k];
    }
  }

  lemma CutBytes(data: string, p: Partial)
    ensures Cut(data, Some(p)) == data[Min(p.offset, |data|)..Min(p.offset + p.length, |data|)]
  {
  }

  lemma SliceInside(t: string, start: nat, end: nat)
    requires start <= end <= |t|
    ensures Slice(t, start, end) == t[start..end]
  {
  }

  /** A section's octets, or the part of them asked for, however the blob comes in. */
  method SpanData(chunks: seq<string>, span: Span, partial: Option<Partial>) returns (d: Option<Literal>)
    requires span.Range? ==> span.start <= span.end <= |Concat(chunks)|
    ensures d.None? <==> span.Nil?
    ensures span.Range? ==> Sends(d.value, Cut(Concat(chunks)[span.start..span.end], partial))
    ensures span.Bytes? ==> Sends(d.value, Cut(span.data, partial))
  {
    hide Slice;
    match span
    case Nil => return None;
    case Bytes(data) =>
      var sent := data;
      if partial.Some? {
        var a := Min(partial.value.offset, |data|);
        var b := Min(partial.value.offset + partial.value.length, |data|);
        sent := data[a..b];
        CutBytes(data, partial.value);
      }
      ConcatAppend([], sent);
      assert [] + [sent] == [sent];
      return Some(Literal(|sent|, [sent]));
    case Range(from, upTo) =>
      var start, end := from, upTo;
      if partial.Some? {
        start := Min(end, start + partial.value.offset);
        end := Min(end, start + partial.value.length);
        CutRange(Concat(chunks), from, upTo, partial.value);
      } else {
        SliceInside(Concat(chunks), from, upTo);
      }
      var data := BlobRange(chunks, start, end);
      return Some(Literal(end - start, data));
  }

  /** What a section of a message with this structure is. */
  ghost function SectionOctets(t: string, nodes: seq<Node>, section: Section, filter: FieldFilter): (w: Option<string>)
    requires Linked(nodes)
  {
    match SectionSpan(Some(nodes), |t|, section, filter)
    case Nil => None
    case Bytes(data) => Some(data)
    case Range(start, end) => Some(Slice(t, start, end))
  }

  /**
   BODY[section]<partial>: for every message, section, path and range, and for any chunking of the
   message on either reading, the size announced is the number of octets sent, and they are the octets
   of the section that were asked for.
  */
  method FetchSection(scanned: seq<string>, stored: seq<string>, section: Section, partial: Option<Partial>,
          read: HeaderReader, filter: FieldFilter)
      returns (d: Option<Literal>)
    requires Concat(scanned) == Concat(stored)
    ensures var t := Concat(stored);
            var nodes := Structure(t, read);
            && Linked(nodes)
            && (d.None? <==> SectionOctets(t, nodes, section, filter).None?)
            && (d.Some? ==> Sends(d.value, Cut(SectionOctets(t, nodes, section, filter).value, partial)))
  {
    hide Structure, SectionSpan, Cut;
    ghost var t := Concat(stored);
    var m := ScanStructure(scanned, read);
    SpanInside(t, read, section, filter);
    var span := SectionSpan(Some(m.nodes), m.size, section, filter);
    d := SpanData(stored, span, partial);
    assert span.Range? ==> t[span.start..span.end] == Slice(t, span.start, span.end);
  }

  // --- decoded bodies ---------------------------------------------------------------------------

  /** A transfer decoder: it starts for an encoding, takes chunks one by one, and has a tail at the end. */
  datatype Decoder<!S> = Decoder(start: string -> S, write: (S, string) -> (S, string), end: S -> string)

  /** All a decoder gives, chunk by chunk, from a state on. */
  ghost function Output<S>(dec: Decoder<S>, st: S, chunks: seq<string>): (w: string)
    decreases |chunks|
  {
    if chunks == [] then dec.end(st)
    else var (next, out) := dec.write(st, chunks[0]); out + Output(dec, next, chunks[1..])
  }

  ghost function Decoded<S>(dec: Decoder<S>, encoding: string, chunks: seq<string>): (w: string) {
    Output(dec, dec.start(encoding), chunks)
  }

  /** What a decoder gives depends on the octets it is given, not on how they are cut. */
  ghost predicate ChunkFree<S(!new)>(dec: Decoder<S>) {
    forall e: string, x: seq<string>, y: seq<string> :: Concat(x) == Concat(y) ==>
      Decoded(dec, e, x) == Decoded(dec, e, y)
  }

  /** The Content-Transfer-Encoding a header block names. */
  type EncodingReader = string -> string

  /** A leaf is decoded as its header says; a multipart or an enclosed message is sent as it is. */
  function EncodingOf(n: Node, encodingOf: EncodingReader): (e: string) {
    if n.kind == Leaf then encodingOf(n.headers) else "7bit"
  }

  /** The decoded body of a part of a message. */
  ghost function BodyOctets<S>(t: string, n: Node, dec: Decoder<S>, encodingOf: EncodingReader): (w: string) {
    Decoded(dec, EncodingOf(n, encodingOf), [Slice(t, n.bodyStart, n.bodyEnd)])
  }

  lemma {:induction false} OutputSplit<S>(dec: Decoder<S>, st: S, chunks: seq<string>, i: nat, out: string, mid: S)
    requires i < |chunks| && out + Output(dec, mid, chunks[i..]) == Output(dec, st, chunks)
    ensures var (next, more) := dec.write(mid, chunks[i]);
            (out + more) + Output(dec, next, chunks[i + 1..]) == Output(dec, st, chunks)
  {
    assert chunks[i..][1..] == chunks[i + 1..];
    var (next, more) := dec.write(mid, chunks[i]);
    assert out + (more + Output(dec, next, chunks[i + 1..])) == (out + more) + Output(dec, next, chunks[i + 1..]);
  }

  /** The body's range of the blob, chunk by chunk through the decoder; empty results are not passed on. */
  method DecodedBody<S(!new)>(blob: seq<string>, n: Node, dec: Decoder<S>, encodingOf: EncodingReader)
          returns (out: seq<string>)
    requires ChunkFree(dec)
    ensures Concat(out) == BodyOctets(Concat(blob), n, dec, encodingOf)
  {
    hide Output, ChunkFree, Slice;
    var encoding := EncodingOf(n, encodingOf);
    var body := BlobRange(blob, n.bodyStart, n.bodyEnd);
    var st := dec.start(encoding);
    out := [];
    assert body[0..] == body && "" + Output(dec, st, body) == Output(dec, st, body);
    for i := 0 to |body|
      invariant Concat(out) + Output(dec, st, body[i..]) == Decoded(dec, encoding, body)
    {
      OutputSplit(dec, dec.start(encoding), body, i, Concat(out), st);
      var (next, more) := dec.write(st, body[i]);
      ConcatAppend(out, more);
      if more != "" { out := out + [more]; } else { assert Concat(out) + more == Concat(out); }
      st := next;
    }
    OutputEnds(dec, st, body[|body|..]);
    var last := dec.end(st);
    ConcatAppend(out, last);
    if last != "" { out := out + [last]; } else { assert Concat(out) + last == Concat(out); }
    ConcatPair("", Slice(Concat(blob), n.bodyStart, n.bodyEnd));
    SameCut(dec, encoding, body, [Slice(Concat(blob), n.bodyStart, n.bodyEnd)]);
  }

  lemma OutputEnds<S>(dec: Decoder<S>, st: S, chunks: seq<string>)
    requires chunks == []
    ensures Output(dec, st, chunks) == dec.end(st)
  {
  }

  lemma SameCut<S(!new)>(dec: Decoder<S>, encoding: string, x: seq<string>, y: seq<string>)
    requires ChunkFree(dec) && Concat(x) == Concat(y)
    ensures Decoded(dec, encoding, x) == Decoded(dec, encoding, y)
  {
  }

  /** What BINARY[path] of a message is: the message for an empty path, else the decoded body of that part. */
  ghost function BinaryOctets<S>(t: string, path: seq<nat>, read: HeaderReader, dec: Decoder<S>,
          encodingOf: EncodingReader): (w: Option<string>) {
    StructureLinked(t, read);
    if path == [] then Some(t)
    else
      match Resolved(Structure(t, read), path)
      case None => None
      case Some(id) => Some(BodyOctets(t, Structure(t, read)[id], dec, encodingOf))
  }

  /**
   BINARY[part]<partial>: one decoding pass gives the size unless it is remembered, another the octets.
   For every message, path and range, for any chunking of the message on each of the readings and any
   decoder that does not depend on chunks: the size announced is the number of octets sent, and they are
   the octets of the decoded part that were asked for.
  */
  method BinaryData<S(!new)>(scanned: seq<string>, sizing: seq<string>, sending: seq<string>, path: seq<nat>,
          partial: Option<Partial>, remembered: Option<nat>, read: HeaderReader, dec: Decoder<S>,
          encodingOf: EncodingReader)
          returns (d: Option<Literal>)
    requires Concat(scanned) == Concat(sizing) == Concat(sending) && ChunkFree(dec)
    requires var w := BinaryOctets(Concat(sending), path, read, dec, encodingOf);
             path != [] && remembered.Some? && w.Some? ==> remembered.value == |w.value|
    ensures var w := BinaryOctets(Concat(sending), path, read, dec, encodingOf);
            (d.None? <==> w.None?) && (d.Some? ==> Sends(d.value, Cut(w.value, partial)))
  {
    hide Structure, BodyOctets, ChunkFree, Cut, Slice, Resolved;
    ghost var t := Concat(sending);
    var m := ScanStructure(scanned, read);
    StructureLinked(t, read);
    if path == [] {
      d := SpanData(sending, Range(0, m.size), partial);
      assert t[0..|t|] == t;
      return;
    }
    var id := ResolvePart(m.nodes, path);
    if id.None? { return None; }
    var n := m.nodes[id.value];
    var first := DecodedBody(sizing, n, dec, encodingOf);
    var size := BinarySize(first, remembered);
    var data := DecodedBody(sending, n, dec, encodingOf);
    ghost var w := BodyOctets(t, n, dec, encodingOf);
    match partial
    case None =>
      CutNothing(w);
      d := Some(Literal(size, data));
    case Some(p) =>
      var offset := Min(p.offset, size);
      var length := Min(p.length, size - offset);
      var cut := SliceStream(data, offset, length);
      BinaryCut(w, p, offset, length);
      d := Some(Literal(length, cut));
  }

  lemma CutNothing(w: string)
    ensures Cut(w, None) == w
  {
  }

  lemma BinaryCut(w: string, p: Partial, offset: nat, length: nat)
    requires offset == Min(p.offset, |w|) && length == Min(p.length, |w| - offset)
    ensures Slice(w, offset, offset + length) == Cut(w, Some(p)) && |Cut(w, Some(p))| == length
  {
  }

  method BinarySize(chunks: seq<string>, remembered: Option<nat>) returns (n: nat)
    requires remembered.Some? ==> remembered.value == |Concat(chunks)|
    ensures n == |Concat(chunks)|
  {
    if remembered.Some? { return remembered.value; }
    n := 0;
    for i := 0 to |chunks|
      invariant n == |Concat(chunks[..i])|
    {
      assert chunks[..i + 1] == chunks[..i] + [chunks[i]];
      ConcatAppend(chunks[..i], chunks[i]);
      n := n + |chunks[i]|;
    }
    assert chunks[..|chunks|] == chunks;
  }

  // --- the message is its header and its text ---------------------------------------------------

  /** The message itself stays open to the end, and no step moves where a part starts. */
  ghost predicate RootOpen(c: Core) {
    |c.stack| > 0 && c.stack[0].node == 0 && |c.nodes| > 0 && c.nodes[0].headerStart == 0
  }

  lemma EndHeadersStart(nodes: seq<Node>, f: Frame, end: nat, read: HeaderReader)
    requires f.node < |nodes|
    ensures EndHeadersAt(nodes, f, end, read)[0].headerStart == nodes[0].headerStart
  {
  }

  lemma {:induction false} CloseAboveStart(nodes: seq<Node>, stack: seq<Frame>, d: nat, at: nat, prevBreak: nat,
          read: HeaderReader)
    requires forall f :: f in stack ==> f.node < |nodes|
    requires |nodes| > 0
    ensures CloseAbove(nodes, stack, d, at, prevBreak, read)[0].headerStart == nodes[0].headerStart
    decreases |stack|
  {
    hide EndHeadersAt;
    if |stack| > d + 1 {
      var f := stack[|stack| - 1];
      EndHeadersStart(nodes, f, Max(nodes[f.node].headerStart, at - prevBreak), read);
      CloseAboveStart(CloseFrame(nodes, f, at, prevBreak, read), stack[..|stack| - 1], d, at, prevBreak, read);
    }
  }

  lemma ProcessLineRoot(c: Core, line: LineSeen, read: HeaderReader)
    requires RootOpen(c) && StackNames(c) && line.Ok()
    ensures RootOpen(ProcessLine(c, line, read))
  {
    hide CloseAbove;
    match LineDelimiter(c, line)
    case Some(d) => CloseAboveStart(c.nodes, c.stack, d, line.start, c.prevBreak, read);
    case None =>
  }

  lemma {:induction false} ScanRoot(c: Core, t: string, start: nat, read: HeaderReader)
    requires RootOpen(c) && StackNames(c) && start <= |t|
    ensures RootOpen(ScanFrom(c, t, start, read))
    decreases |t| - start
  {
    hide ProcessLine, RootOpen;
    if start < |t| {
      var line := LineOf(t, start, LineStop(t, start), CapFor(c));
      ProcessLineRoot(c, line, read);
      ScanRoot(ProcessLine(c, line, read), t, LineStop(t, start), read);
    }
  }

  lemma {:induction false} CloseAllRoot(nodes: seq<Node>, stack: seq<Frame>, size: nat, read: HeaderReader)
    requires (forall f :: f in stack ==> f.node < |nodes|) && |nodes| > 0 && stack != [] && stack[0].node == 0
    ensures var r := CloseAll(nodes, stack, size, read);
            r[0].headerStart == nodes[0].headerStart && r[0].bodyEnd == size
    decreases |stack|
  {
    hide EndHeadersAt;
    var f := stack[|stack| - 1];
    EndHeadersStart(nodes, f, size, read);
    var r := CloseAtEnd(nodes, f, size, read);
    if |stack| > 1 {
      CloseAllRoot(r, stack[..|stack| - 1], size, read);
    } else {
      assert stack[..0] == [];
    }
  }

  /** BODY[HEADER] and BODY[TEXT] of a message are the message, cut in two. */
  lemma HeaderThenText(t: string, read: HeaderReader, filter: FieldFilter)
    ensures Linked(Structure(t, read))
    ensures var nodes := Structure(t, read);
            var header := SectionOctets(t, nodes, Section([], Header), filter);
            var text := SectionOctets(t, nodes, Section([], Text), filter);
            header.Some? && text.Some? && header.value + text.value == t
  {
    hide ScanFrom, CloseAll;
    StructureLinked(t, read);
    StructureSound(t, read);
    var c := ScanFrom(Start(read), t, 0, read);
    ScanRoot(Start(read), t, 0, read);
    CloseAllRoot(c.nodes, c.stack, |t|, read);
    var n := Structure(t, read)[0];
    assert Sound(n, t, |t|);
    SliceInside(t, n.headerStart, n.bodyStart);
    SliceInside(t, n.bodyStart, n.bodyEnd);
    assert t[0..n.bodyStart] + t[n.bodyStart..|t|] == t;
  }
}
