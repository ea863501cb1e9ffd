/**
 The ManageSieve command reader and the strings the server writes (apps/managesieve/src/protocol.ts).
 A client line is atoms, numbers and strings between single spaces, ended by CRLF; a string is quoted
 or a counted literal. Text arrives in chunks of any size, and the reader keeps what it cannot yet use.
 An octet is a char below 256.
*/
module ManageSieve {
  import opened Sets
  import opened Chunks
  import opened Decimal

  datatype Limits = Limits(maxLine: nat, maxLiteral: nat, hardLiteral: nat)

  datatype Token = Atom(name: string) | Num(value: nat) | Str(text: string, literal: bool)

  datatype Problem =
    | LineTooLong | BareCR | BareLF | EmptyLine | ExpectedSpace | QuotedControl | BadEscape
    | BadLiteralLength | BadLiteral | LiteralHeader | NumberRange | Unexpected | LiteralDropped | LiteralRefused

  const MAX_NUMBER: nat := 4_294_967_295

  /**
   What parsing the buffer comes to. NeedMore: wait for more text. Starved: the text ran out with a
   limit already passed, which ends the connection as a line too long. The other three are decided by
   the text read.
  */
  datatype Parse =
    | NeedMore
    | Starved
    | Line(tokens: seq<Token>, end: nat)
    | Failure(problem: Problem, resumeAt: Option<nat>)
    | Oversize(dataStart: nat, size: nat)

  predicate Decided(p: Parse) { !p.NeedMore? && !p.Starved? }

  // --- parseLine --------------------------------------------------------------------------------

  function LineEnd(b: string, from: nat): (r: Option<nat>)
    ensures r.Some? ==> from + 2 <= r.value <= |b|
    decreases |b| - from
  {
    if from + 1 >= |b| then None
    else if b[from] == '\r' && b[from + 1] == '\n' then Some(from + 2)
    else LineEnd(b, from + 1)
  }

  /** A bad line is reported once its end is in sight. */
  function FailAt(b: string, problem: Problem, at: nat, lim: Limits): (p: Parse)
    requires at <= |b|
    ensures p.Failure? ==> p.resumeAt.Some? && at < p.resumeAt.value <= |b|
    ensures !p.Line? && !p.Oversize?
  {
    match LineEnd(b, at)
    case Some(e) => Failure(problem, Some(e))
    case None => if |b| - at > lim.maxLine then Starved else NeedMore
  }

  predicate IsDigit(c: char) { '0' <= c <= '9' }

  predicate IsLetter(c: char) { 'A' <= c <= 'Z' || 'a' <= c <= 'z' }

  function Upper(c: char): (u: char) {
    if 'a' <= c <= 'z' then (c as int - 32) as char else c
  }

  function UpperAll(s: string): (u: string) {
    seq(|s|, i requires 0 <= i < |s| => Upper(s[i]))
  }

  function RunEnd(b: string, i: nat, kind: char -> bool): (j: nat)
    requires i <= |b|
    ensures i <= j <= |b| && (forall k :: i <= k < j ==> kind(b[k])) && (j < |b| ==> !kind(b[j]))
    decreases |b| - i
  {
    if i < |b| && kind(b[i]) then RunEnd(b, i + 1, kind) else i
  }

  function DigitValue(c: char): (d: nat) {
    if IsDigit(c) then c as nat - '0' as nat else 0
  }

  function DigitValues(s: string): (ds: seq<nat>) {
    seq(|s|, i requires 0 <= i < |s| => DigitValue(s[i]))
  }

  /**
   One token and what it adds to the count of octets outside literals, or why there is none: the text
   ran out, or did so with a quoted string past the line limit; the line is bad at a column; a literal
   is too large.
  */
  datatype Scan =
    | Got(token: Token, next: nat, cost: nat)
    | More
    | Endless
    | Bad(problem: Problem, at: nat)
    | Big(dataStart: nat, size: nat)

  predicate ScanInside(b: string, i: nat, r: Scan) {
    match r
    case Got(_, next, _) => i < next <= |b|
    case Bad(_, at) => i <= at < |b|
    case Big(dataStart, _) => i < dataStart <= |b|
    case _ => true
  }

  predicate Inside(b: string, i: nat, p: Parse) {
    match p
    case Line(_, end) => i < end <= |b|
    case Failure(_, Some(e)) => i < e <= |b|
    case Oversize(dataStart, _) => i < dataStart <= |b|
    case _ => true
  }

  function Quoted(b: string, start: nat, i: nat, out: string, lim: Limits): (r: Scan)
    requires start < i <= |b|
    ensures ScanInside(b, i, r)
    decreases |b| - i
  {
    if i >= |b| then (if i - start > lim.maxLine then Endless else More)
    else if b[i] == '"' then Got(Str(out, false), i + 1, i + 1 - start)
    else if b[i] == '\r' || b[i] == '\n' || b[i] == '\0' then Bad(QuotedControl, i)
    else if b[i] == '\\' then
      if i + 1 >= |b| then More
      else if b[i + 1] != '"' && b[i + 1] != '\\' then Bad(BadEscape, i)
      else Quoted(b, start, i + 2, out + [b[i + 1]], lim)
    else Quoted(b, start, i + 1, out + [b[i]], lim)
  }

  function Literal(b: string, start: nat, lim: Limits): (r: Scan)
    requires start < |b|
    ensures ScanInside(b, start, r)
  {
    var j := RunEnd(b, start + 1, IsDigit);
    if j >= |b| then More
    else if j == start + 1 || j - (start + 1) > 10 then Bad(BadLiteralLength, start)
    else LiteralHead(b, start, j, Number(DigitValues(b[start + 1..j])), lim)
  }

  function LiteralHead(b: string, start: nat, digitsEnd: nat, size: nat, lim: Limits): (r: Scan)
    requires start < digitsEnd < |b|
    ensures ScanInside(b, start, r)
  {
    var j := if b[digitsEnd] == '+' then digitsEnd + 1 else digitsEnd;
    if j >= |b| then More
    else if b[j] != '}' then Bad(BadLiteral, start)
    else if j + 1 >= |b| then More
    else if b[j + 1] != '\r' then Bad(LiteralHeader, j)
    else if j + 2 >= |b| then More
    else if b[j + 2] != '\n' then Bad(LiteralHeader, j)
    else if size > lim.maxLiteral then Big(j + 3, size)
    else if |b| < j + 3 + size then More
    else Got(Str(b[j + 3..j + 3 + size], true), j + 3 + size, j + 3 - start)
  }

  function Numeric(b: string, start: nat): (r: Scan)
    requires start < |b| && IsDigit(b[start])
    ensures ScanInside(b, start, r)
  {
    var j := RunEnd(b, start, IsDigit);
    if j >= |b| then More
    else
      var value := Number(DigitValues(b[start..j]));
      if j - start > 10 || value > MAX_NUMBER then Bad(NumberRange, start) else Got(Num(value), j, j - start)
  }

  function Word(b: string, start: nat): (r: Scan)
    requires start < |b| && IsLetter(b[start])
    ensures ScanInside(b, start, r)
  {
    var j := RunEnd(b, start, IsLetter);
    if j >= |b| then More else Got(Atom(UpperAll(b[start..j])), j, j - start)
  }

  function ScanToken(b: string, i: nat, lim: Limits): (r: Scan)
    requires i < |b|
    ensures ScanInside(b, i, r)
  {
    if b[i] == '"' then Quoted(b, i, i + 1, [], lim)
    else if b[i] == '{' then Literal(b, i, lim)
    else if IsDigit(b[i]) then Numeric(b, i)
    else if IsLetter(b[i]) then Word(b, i)
    else Bad(Unexpected, i)
  }

  function ParseFrom(b: string, i: nat, octets: nat, tokens: seq<Token>, lim: Limits): (p: Parse)
    requires i <= |b|
    ensures Inside(b, i, p)
    decreases |b| - i
  {
    if octets > lim.maxLine then Failure(LineTooLong, None)
    else if i >= |b| then (if |b| > lim.maxLine + lim.maxLiteral then Starved else NeedMore)
    else if b[i] == '\r' then
      if i + 1 >= |b| then NeedMore
      else if b[i + 1] != '\n' then Failure(BareCR, Some(i + 1))
      else if tokens == [] then FailAt(b, EmptyLine, i, lim)
      else Line(tokens, i + 2)
    else if b[i] == '\n' then Failure(BareLF, Some(i + 1))
    else if tokens != [] && b[i] != ' ' then FailAt(b, ExpectedSpace, i, lim)
    else
      var j := if tokens != [] then i + 1 else i;
      if j >= |b| then NeedMore
      else
        match ScanToken(b, j, lim)
        case Got(token, next, cost) => ParseFrom(b, next, octets + (j - i) + cost, tokens + [token], lim)
        case More => NeedMore
        case Endless => Starved
        case Bad(problem, at) => FailAt(b, problem, at, lim)
        case Big(dataStart, size) => Oversize(dataStart, size)
  }

  function ParseBuffer(b: string, lim: Limits): (p: Parse)
    ensures Inside(b, 0, p)
  {
    ParseFrom(b, 0, 0, [], lim)
  }

  // --- a decided answer does not change when more text arrives ----------------------------------

  lemma {:induction false} LineEndStable(b: string, c: string, from: nat)
    requires b <= c && LineEnd(b, from).Some?
    ensures LineEnd(c, from) == LineEnd(b, from)
    decreases |b| - from
  {
    if !(b[from] == '\r' && b[from + 1] == '\n') { LineEndStable(b, c, from + 1); }
  }

  lemma FailStable(b: string, c: string, problem: Problem, at: nat, lim: Limits)
    requires b <= c && at <= |b| && Decided(FailAt(b, problem, at, lim))
    ensures FailAt(c, problem, at, lim) == FailAt(b, problem, at, lim)
  {
    LineEndStable(b, c, at);
  }

  lemma {:induction false} RunEndStable(b: string, c: string, i: nat, kind: char -> bool)
    requires b <= c && i <= |b| && RunEnd(b, i, kind) < |b|
    ensures RunEnd(c, i, kind) == RunEnd(b, i, kind)
    ensures c[i..RunEnd(b, i, kind)] == b[i..RunEnd(b, i, kind)]
    decreases |b| - i
  {
    if kind(b[i]) { RunEndStable(b, c, i + 1, kind); }
  }

  predicate ScanDecided(r: Scan) { !r.More? && !r.Endless? }

  lemma {:induction false} QuotedStable(b: string, c: string, start: nat, i: nat, out: string, lim: Limits)
    requires b <= c && start < i <= |b| && ScanDecided(Quoted(b, start, i, out, lim))
    ensures Quoted(c, start, i, out, lim) == Quoted(b, start, i, out, lim)
    decreases |b| - i
  {
    if b[i] != '"' && b[i] != '\r' && b[i] != '\n' && b[i] != '\0' {
      if b[i] != '\\' {
        QuotedStable(b, c, start, i + 1, out + [b[i]], lim);
      } else if b[i + 1] == '"' || b[i + 1] == '\\' {
        QuotedStable(b, c, start, i + 2, out + [b[i + 1]], lim);
      }
    }
  }

  lemma LiteralHeadStable(b: string, c: string, start: nat, digitsEnd: nat, size: nat, lim: Limits)
    requires b <= c && start < digitsEnd < |b| && ScanDecided(LiteralHead(b, start, digitsEnd, size, lim))
    ensures LiteralHead(c, start, digitsEnd, size, lim) == LiteralHead(b, start, digitsEnd, size, lim)
  {
    var r := LiteralHead(b, start, digitsEnd, size, lim);
    if r.Got? { assert c[r.next - size..r.next] == b[r.next - size..r.next]; }
  }

  lemma ScanStable(b: string, c: string, i: nat, lim: Limits)
    requires b <= c && i < |b| && ScanDecided(ScanToken(b, i, lim))
    ensures ScanToken(c, i, lim) == ScanToken(b, i, lim)
  {
    hide LiteralHead, RunEnd, Quoted;
    if b[i] == '"' {
      QuotedStable(b, c, i, i + 1, [], lim);
    } else if b[i] == '{' {
      RunEndStable(b, c, i + 1, IsDigit);
      var j := RunEnd(b, i + 1, IsDigit);
      if 0 < j - (i + 1) <= 10 { LiteralHeadStable(b, c, i, j, Number(DigitValues(b[i + 1..j])), lim); }
    } else if IsDigit(b[i]) {
      RunEndStable(b, c, i, IsDigit);
    } else if IsLetter(b[i]) {
      RunEndStable(b, c, i, IsLetter);
    }
  }

  lemma {:induction false} ParseFromStable(b: string, c: string, i: nat, octets: nat, tokens: seq<Token>, lim: Limits)
    requires b <= c && i <= |b| && Decided(ParseFrom(b, i, octets, tokens, lim))
    ensures ParseFrom(c, i, octets, tokens, lim) == ParseFrom(b, i, octets, tokens, lim)
    decreases |b| - i
  {
    hide FailAt, ScanToken;
    if octets <= lim.maxLine {
      if b[i] == '\r' {
        if b[i + 1] == '\n' && tokens == [] { FailStable(b, c, EmptyLine, i, lim); }
      } else if b[i] != '\n' {
        if tokens != [] && b[i] != ' ' {
          FailStable(b, c, ExpectedSpace, i, lim);
        } else {
          var j := if tokens != [] then i + 1 else i;
          ScanStable(b, c, j, lim);
          match ScanToken(b, j, lim)
          case Got(token, next, cost) =>
            ParseFromStable(b, c, next, octets + (j - i) + cost, tokens + [token], lim);
          case Bad(problem, at) => FailStable(b, c, problem, at, lim);
          case Big(_, _) =>
        }
      }
    }
  }

  /** A decided answer about a buffer stays the answer when octets are appended to it. */
  lemma ParseStable(b: string, x: string, lim: Limits)
    requires Decided(ParseBuffer(b, lim))
    ensures ParseBuffer(b + x, lim) == ParseBuffer(b, lim)
  {
    ParseFromStable(b, b + x, 0, 0, [], lim);
  }

  // --- the reader -------------------------------------------------------------------------------

  datatype Event = Command(tokens: seq<Token>) | Error(problem: Problem, fatal: bool)

  datatype Reader = Reader(buf: string, skip: nat, discard: bool, fatal: bool)

  const NEW_READER: Reader := Reader("", 0, false, false)

  function Pushed(r: Reader, chunk: string): (q: Reader) {
    if r.fatal then r
    else
      var n := if r.skip < |chunk| then r.skip else |chunk|;
      r.(skip := r.skip - n, buf := r.buf + chunk[n..])
  }

  /** One call of next: wait, give an event, or close the connection for a line end that has not come. */
  datatype Step = Wait(waiting: Reader) | Emit(event: Event, after: Reader) | Starve(dead: Reader)

  function Dead(r: Reader): (q: Reader) { r.(buf := "", fatal := true) }

  function Look(r: Reader, lim: Limits): (s: Step)
    ensures s.Emit? ==> Fuel(s.after) < Fuel(r)
    ensures s.Wait? ==> s.waiting.fatal == r.fatal
  {
    if r.fatal || r.skip > 0 then Wait(r)
    else if r.discard then LookDiscarding(r, lim)
    else if r.buf == "" then Wait(r)
    else
      match ParseBuffer(r.buf, lim)
      case NeedMore => Wait(r)
      case Starved => Starve(Dead(r))
      case Line(tokens, end) => Emit(Command(tokens), r.(buf := r.buf[end..]))
      case Failure(problem, None) => Emit(Error(problem, true), Dead(r))
      case Failure(problem, Some(e)) => Emit(Error(problem, false), r.(buf := r.buf[e..]))
      case Oversize(dataStart, size) =>
        if size > lim.hardLiteral then Emit(Error(LiteralRefused, true), Dead(r))
        else if |r.buf| >= dataStart + size then LookDiscarding(r.(buf := r.buf[dataStart + size..], discard := true),
          lim)
        else Wait(Reader("", size - (|r.buf| - dataStart), true, false))
  }

  /** What remains of a line whose literal was too large is dropped, and the loss reported. */
  function LookDiscarding(r: Reader, lim: Limits): (s: Step)
    requires !r.fatal && r.skip == 0 && r.discard
    ensures s.Emit? ==> Fuel(s.after) < Fuel(r)
    ensures s.Wait? ==> s.waiting == r
  {
    match LineEnd(r.buf, 0)
    case Some(e) => Emit(Error(LiteralDropped, false), r.(buf := r.buf[e..], discard := false))
    case None => if |r.buf| > lim.maxLine then Starve(Dead(r)) else Wait(r)
  }

  function Fuel(r: Reader): (n: nat) { if r.fatal then 0 else |r.buf| + 1 }

  /** The events next gives until it gives none, the reader then, and whether a missing line end closed it. */
  datatype Run = Run(events: seq<Event>, reader: Reader, starved: bool)

  function Drain(r: Reader, lim: Limits): (d: Run)
    decreases Fuel(r)
  {
    match Look(r, lim)
    case Wait(q) => Run([], q, false)
    case Starve(q) => Run([Error(LineTooLong, true)], q, true)
    case Emit(e, q) => var d := Drain(q, lim); d.(events := [e] + d.events)
  }

  /** A session reads a chunk, takes every event it can, and reads the next. */
  function Feed(r: Reader, chunks: seq<string>, lim: Limits): (d: Run)
    decreases |chunks|
  {
    if chunks == [] then Run([], r, false)
    else
      var first := Drain(Pushed(r, chunks[0]), lim);
      var rest := Feed(first.reader, chunks[1..], lim);
      Run(first.events + rest.events, rest.reader, first.starved || rest.starved)
  }

  // --- chunking does not matter -----------------------------------------------------------------

  lemma DiscardingStable(r: Reader, x: string, lim: Limits)
    requires !r.fatal && r.skip == 0 && r.discard && !LookDiscarding(r, lim).Starve?
    ensures match LookDiscarding(r, lim)
            case Emit(e, q) => LookDiscarding(Pushed(r, x), lim) == Emit(e, Pushed(q, x))
            case Wait(q) => q == r
            case Starve(_) => false
  {
    if LineEnd(r.buf, 0).Some? {
      LineEndStable(r.buf, r.buf + x, 0);
      var e := LineEnd(r.buf, 0).value;
      assert (r.buf + x)[e..] == r.buf[e..] + x;
    }
  }

  /** Text pushed before a call of next and text pushed after it come to the same. */
  lemma LookStable(r: Reader, x: string, lim: Limits)
    requires !Look(r, lim).Starve?
    ensures match Look(r, lim)
            case Emit(e, q) => Look(Pushed(r, x), lim) == Emit(e, Pushed(q, x))
            case Wait(q) => Look(Pushed(r, x), lim) == Look(Pushed(q, x), lim)
            case Starve(_) => false
  {
    hide ParseBuffer, LookDiscarding, LineEnd;
    if r.fatal || r.skip > 0 || (!r.discard && r.buf == "") {
    } else if r.discard {
      DiscardingStable(r, x, lim);
    } else if Decided(ParseBuffer(r.buf, lim)) {
      DecidedStable(r, x, lim);
    }
  }

  lemma DecidedStable(r: Reader, x: string, lim: Limits)
    requires !r.fatal && r.skip == 0 && !r.discard && r.buf != ""
    requires Decided(ParseBuffer(r.buf, lim)) && !Look(r, lim).Starve?
    ensures match Look(r, lim)
            case Emit(e, q) => Look(Pushed(r, x), lim) == Emit(e, Pushed(q, x))
            case Wait(q) => Look(Pushed(r, x), lim) == Look(Pushed(q, x), lim)
            case Starve(_) => false
  {
    hide ParseBuffer, LookDiscarding, LineEnd;
    var all := r.buf + x;
    ParseStable(r.buf, x, lim);
    assert Pushed(r, x).buf == all;
    match ParseBuffer(r.buf, lim)
    case Line(_, end) => assert all[end..] == r.buf[end..] + x;
    case Failure(_, None) =>
    case Failure(_, Some(e)) => assert all[e..] == r.buf[e..] + x;
    case Oversize(dataStart, size) =>
      if size <= lim.hardLiteral { OversizeStable(r, x, dataStart, size, lim); }
  }

  lemma OversizeStable(r: Reader, x: string, dataStart: nat, size: nat, lim: Limits)
    requires !r.fatal && r.skip == 0 && !r.discard && r.buf != "" && dataStart <= |r.buf|
    requires ParseBuffer(r.buf, lim) == ParseBuffer(r.buf + x, lim) == Oversize(dataStart, size)
             && size <= lim.hardLiteral
    requires !Look(r, lim).Starve?
    ensures match Look(r, lim)
            case Emit(e, q) => Look(Pushed(r, x), lim) == Emit(e, Pushed(q, x))
            case Wait(q) => Look(Pushed(r, x), lim) == Look(Pushed(q, x), lim)
            case Starve(_) => false
  {
    hide ParseBuffer, LookDiscarding, LineEnd;
    var all, end := r.buf + x, dataStart + size;
    assert Pushed(r, x).buf == all;
    if |r.buf| >= end {
      var q := r.(buf := r.buf[end..], discard := true);
      assert all[end..] == r.buf[end..] + x;
      DiscardingStable(q, x, lim);
    } else if |all| >= end {
      assert all[end..] == x[end - |r.buf|..] == "" + x[end - |r.buf|..];
    } else {
      assert "" + x[|x|..] == "";
    }
  }

  lemma {:induction false} DrainStable(r: Reader, x: string, lim: Limits)
    requires !Drain(r, lim).starved
    ensures var d, more := Drain(r, lim), Drain(Pushed(Drain(r, lim).reader, x), lim);
            Drain(Pushed(r, x), lim) == Run(d.events + more.events, more.reader, more.starved)
    decreases Fuel(r)
  {
    hide Look, Pushed;
    LookStable(r, x, lim);
    match Look(r, lim)
    case Wait(q) =>
    case Emit(e, q) => DrainStable(q, x, lim);
  }

  ghost predicate NeverStarves(s: string, lim: Limits) {
    forall n :: 0 <= n <= |s| ==> !Drain(Pushed(NEW_READER, s[..n]), lim).starved
  }

  lemma {:induction false} FeedAfter(seen: string, chunks: seq<string>, lim: Limits)
    requires NeverStarves(seen + Concat(chunks), lim)
    ensures var d := Drain(Pushed(NEW_READER, seen), lim);
            var f := Feed(d.reader, chunks, lim);
            Drain(Pushed(NEW_READER, seen + Concat(chunks)), lim) == Run(d.events + f.events, f.reader, false)
              && !f.starved
    decreases |chunks|
  {
    hide Drain, Pushed, Look;
    var s := seen + Concat(chunks);
    PrefixFine(s, |s|, lim);
    assert s[..|s|] == s;
    if chunks == [] {
      assert s == seen;
    } else {
      var next := seen + chunks[0];
      assert s == next + Concat(chunks[1..]);
      FeedAfter(next, chunks[1..], lim);
      assert s[..|seen|] == seen;
      PrefixFine(s, |seen|, lim);
      PushTwice(seen, chunks[0]);
      DrainStable(Pushed(NEW_READER, seen), chunks[0], lim);
      assert s[..|next|] == next;
      PrefixFine(s, |next|, lim);
      var d := Drain(Pushed(NEW_READER, seen), lim);
      var first := Drain(Pushed(d.reader, chunks[0]), lim);
      var rest := Feed(first.reader, chunks[1..], lim);
      assert (d.events + first.events) + rest.events == d.events + (first.events + rest.events);
    }
  }

  lemma PrefixFine(s: string, n: nat, lim: Limits)
    requires NeverStarves(s, lim) && n <= |s|
    ensures !Drain(Pushed(NEW_READER, s[..n]), lim).starved
  {
  }

  lemma PushTwice(x: string, y: string)
    ensures Pushed(Pushed(NEW_READER, x), y) == Pushed(NEW_READER, x + y)
  {
  }

  /** While no prefix of the text starves the reader, the events depend on the text alone, not on its chunks. */
  lemma ChunksDoNotMatter(chunks: seq<string>, lim: Limits)
    requires NeverStarves(Concat(chunks), lim)
    ensures Feed(NEW_READER, chunks, lim) == Drain(Pushed(NEW_READER, Concat(chunks)), lim)
  {
    assert "" + Concat(chunks) == Concat(chunks);
    FeedAfter("", chunks, lim);
    assert Drain(Pushed(NEW_READER, ""), lim) == Run([], NEW_READER, false);
  }

  lemma CutThere(s: string, n: nat, lim: Limits)
    requires n <= |s| && Drain(Pushed(NEW_READER, s[..n]), lim).starved
    ensures Concat([s[..n], s[n..]]) == s && Feed(NEW_READER, [s[..n], s[n..]], lim).starved
  {
    hide Drain, Pushed;
    ConcatPair(s[..n], s[n..]);
  }

  /** No chunking of a text starves the reader exactly when no prefix of the text does. */
  lemma StarvesExactly(s: string, lim: Limits)
    ensures (forall chunks :: Concat(chunks) == s ==> !Feed(NEW_READER, chunks, lim).starved) <==> NeverStarves(s, lim)
  {
    hide Drain, Pushed, Feed;
    if NeverStarves(s, lim) {
      forall chunks | Concat(chunks) == s ensures !Feed(NEW_READER, chunks, lim).starved {
        ChunksDoNotMatter(chunks, lim);
        assert s[..|s|] == s;
      }
    } else {
      var n :| 0 <= n <= |s| && Drain(Pushed(NEW_READER, s[..n]), lim).starved;
      CutThere(s, n, lim);
    }
  }

  lemma {:induction false} QuotedStarved(b: string, start: nat, i: nat, out: string, lim: Limits)
    requires start < i <= |b| && Quoted(b, start, i, out, lim) == Endless
    ensures |b| > lim.maxLine
    decreases |b| - i
  {
    if i < |b| && b[i] != '"' && b[i] != '\r' && b[i] != '\n' && b[i] != '\0' {
      if b[i] != '\\' {
        QuotedStarved(b, start, i + 1, out + [b[i]], lim);
      } else if i + 1 < |b| && (b[i + 1] == '"' || b[i + 1] == '\\') {
        QuotedStarved(b, start, i + 2, out + [b[i + 1]], lim);
      }
    }
  }

  lemma ScanStarved(b: string, i: nat, lim: Limits)
    requires i < |b| && ScanToken(b, i, lim) == Endless
    ensures |b| > lim.maxLine
  {
    if b[i] == '"' { QuotedStarved(b, i, i + 1, [], lim); }
  }

  lemma {:induction false} ParseFromStarved(b: string, i: nat, octets: nat, tokens: seq<Token>, lim: Limits)
    requires i <= |b| && ParseFrom(b, i, octets, tokens, lim).Starved?
    ensures |b| > lim.maxLine
    decreases |b| - i
  {
    hide ScanToken;
    if i < |b| && b[i] != '\r' && (tokens == [] || b[i] == ' ') {
      var j := if tokens != [] then i + 1 else i;
      match ScanToken(b, j, lim)
      case Got(token, next, cost) => ParseFromStarved(b, next, octets + (j - i) + cost, tokens + [token], lim);
      case Endless => ScanStarved(b, j, lim);
      case Bad(_, _) =>
    }
  }

  /** A reader starves only on a buffer longer than the line limit. */
  lemma StarvedIsLong(r: Reader, lim: Limits)
    requires Look(r, lim).Starve?
    ensures |r.buf| > lim.maxLine
  {
    if !r.discard && ParseBuffer(r.buf, lim).Starved? {
      ParseFromStarved(r.buf, 0, 0, [], lim);
    }
  }

  function Repeat(c: char, n: nat): (s: string) { seq(n, _ => c) }

  lemma {:induction false} NoLineEnd(b: string, from: nat)
    requires forall i :: 0 <= i < |b| ==> b[i] != '\r'
    ensures LineEnd(b, from).None?
    decreases |b| - from
  {
    if from + 1 < |b| { NoLineEnd(b, from + 1); }
  }

  lemma {:induction false} FirstLineEnd(b: string, from: nat, at: nat)
    requires from <= at && at + 1 < |b| && b[at] == '\r' && b[at + 1] == '\n'
    requires forall i :: from <= i < at ==> b[i] != '\r'
    ensures LineEnd(b, from) == Some(at + 2)
    decreases at - from
  {
    if from < at { FirstLineEnd(b, from + 1, at); }
  }

  /**
   Under every limit, chunks do matter for a bad line past it: in one chunk it is an error that the
   connection survives, and cut before its line end it closes the connection.
  */
  lemma LongBadLineDependsOnChunks(lim: Limits)
    ensures var bad := Repeat('!', lim.maxLine + 1);
            Feed(NEW_READER, [bad + "\r\n"], lim).events == [Error(Unexpected, false)] &&
            Feed(NEW_READER, [bad, "\r\n"], lim).events == [Error(LineTooLong, true)]
  {
    var bad := Repeat('!', lim.maxLine + 1);
    WholeBadLine(bad, lim);
    CutBadLine(bad, lim);
  }

  lemma WholeBadLine(bad: string, lim: Limits)
    requires bad == Repeat('!', lim.maxLine + 1)
    ensures Feed(NEW_READER, [bad + "\r\n"], lim).events == [Error(Unexpected, false)]
  {
    var b := bad + "\r\n";
    FirstLineEnd(b, 0, |bad|);
    assert ParseBuffer(b, lim) == Failure(Unexpected, Some(|b|));
    var r := Pushed(NEW_READER, b);
    assert r.buf == b && b[|b|..] == "";
    assert Look(r, lim) == Emit(Error(Unexpected, false), NEW_READER);
    assert Drain(NEW_READER, lim) == Run([], NEW_READER, false);
    var chunks := [b];
    assert chunks[1..] == [];
  }

  lemma CutBadLine(bad: string, lim: Limits)
    requires bad == Repeat('!', lim.maxLine + 1)
    ensures Feed(NEW_READER, [bad, "\r\n"], lim).events == [Error(LineTooLong, true)]
  {
    NoLineEnd(bad, 0);
    assert ParseBuffer(bad, lim) == Starved;
    var r := Pushed(NEW_READER, bad);
    assert r.buf == bad;
    var dead := Dead(NEW_READER);
    assert Drain(r, lim) == Run([Error(LineTooLong, true)], dead, true);
    assert Drain(Pushed(dead, "\r\n"), lim) == Run([], dead, false);
    var chunks, last := [bad, "\r\n"], ["\r\n"];
    assert chunks[1..] == last && last[1..] == [];
    assert Feed(dead, ["\r\n"], lim).events == [];
  }

  // --- what the server writes, read back --------------------------------------------------------

  function Escape(v: string): (e: string) {
    if v == "" then ""
    else EscapedChar(v[0]) + Escape(v[1..])
  }

  predicate NoControls(v: string) {
    forall i :: 0 <= i < |v| ==> v[i] != '\r' && v[i] != '\n' && v[i] != '\0'
  }

  predicate Quotable(v: string) { |v| <= 1024 && NoControls(v) }

  function EncodeString(v: string): (s: string) {
    if Quotable(v) then "\"" + Escape(v) + "\"" else EncodeLiteral(v)
  }

  function EncodeLiteral(v: string): (s: string) {
    "{" + Numeral(|v|) + "}\r\n" + v
  }

  /** The text w stands in b at i. */
  predicate At(b: string, i: nat, w: string) { i + |w| <= |b| && b[i..i + |w|] == w }

  lemma AtSplit(b: string, i: nat, w: string, x: string)
    requires At(b, i, w + x)
    ensures At(b, i, w) && At(b, i + |w|, x)
  {
    assert b[i..i + |w|] == (w + x)[..|w|] == w;
    assert b[i + |w|..i + |w| + |x|] == (w + x)[|w|..] == x;
  }

  function EscapedChar(c: char): (e: string) {
    if c == '"' || c == '\\' then ['\\', c] else [c]
  }

  lemma QuotedChar(b: string, start: nat, i: nat, out: string, c: char, lim: Limits)
    requires start < i && c != '\r' && c != '\n' && c != '\0' && At(b, i, EscapedChar(c))
    ensures Quoted(b, start, i, out, lim) == Quoted(b, start, i + |EscapedChar(c)|, out + [c], lim)
  {
    var e := EscapedChar(c);
    assert b[i] == b[i..i + |e|][0] == e[0];
    assert |e| == 2 ==> b[i + 1] == b[i..i + |e|][1] == e[1];
  }

  lemma {:induction false} QuotedRoundTrip(b: string, start: nat, i: nat, out: string, v: string, lim: Limits)
    requires start < i && NoControls(v) && At(b, i, Escape(v)) && At(b, i + |Escape(v)|, "\"")
    ensures Quoted(b, start, i, out, lim) == Got(Str(out + v, false), i + |Escape(v)| + 1, i + |Escape(v)| + 1 - start)
    decreases |v|
  {
    hide *;
    if v == "" {
      QuotedEnd(b, start, i, out, lim);
    } else {
      EscapeCons(v);
      AtSplit(b, i, EscapedChar(v[0]), Escape(v[1..]));
      QuotedChar(b, start, i, out, v[0], lim);
      QuotedRoundTrip(b, start, i + |EscapedChar(v[0])|, out + [v[0]], v[1..], lim);
      assert out + [v[0]] + v[1..] == out + v;
    }
  }

  lemma QuotedEnd(b: string, start: nat, i: nat, out: string, lim: Limits)
    requires start < i && At(b, i + |Escape("")|, "\"")
    ensures Escape("") == "" && Quoted(b, start, i, out, lim) == Got(Str(out + "", false), i + 1, i + 1 - start)
  {
    assert out + "" == out && b[i] == b[i..i + 1][0] == '"';
  }

  lemma EscapeCons(v: string)
    requires v != "" && NoControls(v)
    ensures Escape(v) == EscapedChar(v[0]) + Escape(v[1..]) && |EscapedChar(v[0])| >= 1
    ensures NoControls(v[1..]) && v[0] != '\r' && v[0] != '\n' && v[0] != '\0'
  {
  }

  lemma {:induction false} RunEndAt(b: string, i: nat, w: string, kind: char -> bool)
    requires At(b, i, w) && (forall c :: c in w ==> kind(c)) && i + |w| < |b| && !kind(b[i + |w|])
    ensures RunEnd(b, i, kind) == i + |w|
    decreases |w|
  {
    if w != "" {
      assert w == [w[0]] + w[1..];
      AtSplit(b, i, [w[0]], w[1..]);
      assert b[i] == w[0] && w[0] in w;
      RunEndAt(b, i + 1, w[1..], kind);
    }
  }

  lemma NumeralReads(n: nat)
    ensures Number(DigitValues(Numeral(n))) == n
    ensures Numeral(n) != "" && forall c :: c in Numeral(n) ==> IsDigit(c)
  {
    var ds := Digits(n);
    forall i | 0 <= i < |ds| ensures IsDigit(Numeral(n)[i]) && DigitValue(Numeral(n)[i]) == ds[i] {
      DigitReads(ds[i]);
    }
    assert DigitValues(Numeral(n)) == ds;
    NumberOfDigits(n);
  }

  lemma DigitReads(d: nat)
    requires d < 10
    ensures IsDigit(DigitChar(d)) && DigitValue(DigitChar(d)) == d
  {
  }

  lemma NumeralShort(n: nat)
    requires n < 10_000_000_000
    ensures |Numeral(n)| <= 10
  {
    assert Power10(10) == 10_000_000_000 by {
      assert Power10(5) == 100_000;
    }
    DigitsLength(n, 10);
  }

  /** What a token costs of the line limit: its octets, without a literal's data. */
  function Cost(t: Token): (n: nat) {
    match t
    case Atom(name) => |name|
    case Num(value) => |Numeral(value)|
    case Str(text, literal) => if literal then |Numeral(|text|)| + 4 else |Escape(text)| + 2
  }

  function Written(t: Token): (s: string) {
    match t
    case Atom(name) => name
    case Num(value) => Numeral(value)
    case Str(text, _) => EncodeString(text)
  }

  predicate Sendable(t: Token, lim: Limits) {
    match t
    case Atom(name) => name != "" && forall c :: c in name ==> 'A' <= c <= 'Z'
    case Num(value) => value <= MAX_NUMBER
    case Str(text, literal) => literal == !Quotable(text) && |text| <= lim.maxLiteral && |text| < 10_000_000_000
  }

  lemma LiteralAt(b: string, i: nat, v: string)
    requires At(b, i, EncodeLiteral(v))
    ensures var n := Numeral(|v|);
            At(b, i, "{") && At(b, i + 1, n) && At(b, i + 1 + |n|, "}\r\n") && At(b, i + 4 + |n|, v)
  {
    hide Numeral, At;
    var n := Numeral(|v|);
    AtSplit(b, i, "{" + n + "}\r\n", v);
    AtSplit(b, i, "{" + n, "}\r\n");
    AtSplit(b, i, "{", n);
  }

  lemma LiteralHeadAt(b: string, i: nat, j: nat, v: string, lim: Limits)
    requires i < j && At(b, j, "}\r\n") && At(b, j + 3, v) && |v| <= lim.maxLiteral
    ensures LiteralHead(b, i, j, |v|, lim) == Got(Str(v, true), j + 3 + |v|, j + 3 - i)
  {
    var head := "}\r\n";
    assert b[j] == b[j..j + 3][0] == head[0] && b[j + 1] == b[j..j + 3][1] == head[1]
      && b[j + 2] == b[j..j + 3][2] == head[2];
  }

  lemma LiteralRoundTrip(b: string, i: nat, v: string, lim: Limits)
    requires At(b, i, EncodeLiteral(v)) && |v| <= lim.maxLiteral && |v| < 10_000_000_000
    ensures b[i] == '{' && Literal(b, i, lim) == Got(Str(v, true), i + |EncodeLiteral(v)|, |Numeral(|v|)| + 4)
  {
    hide Numeral, Number, DigitValues, LiteralHead, RunEnd;
    var n := Numeral(|v|);
    LiteralAt(b, i, v);
    var j := i + 1 + |n|;
    assert b[i] == b[i..i + 1][0] == '{' && b[j] == b[j..j + 3][0] == '}';
    NumeralReads(|v|);
    NumeralShort(|v|);
    RunEndAt(b, i + 1, n, IsDigit);
    LiteralHeadAt(b, i, j, v, lim);
  }

  lemma NumericRoundTrip(b: string, i: nat, value: nat)
    requires value <= MAX_NUMBER && At(b, i, Numeral(value)) && i + |Numeral(value)| < |b|
             && !IsDigit(b[i + |Numeral(value)|])
    ensures IsDigit(b[i]) && Numeric(b, i) == Got(Num(value), i + |Numeral(value)|, |Numeral(value)|)
  {
    hide Numeral, Number, DigitValues, RunEnd;
    var n := Numeral(value);
    NumeralReads(value);
    NumeralShort(value);
    RunEndAt(b, i, n, IsDigit);
    assert b[i] == b[i..i + |n|][0] == n[0] && n[0] in n;
  }

  lemma WordRoundTrip(b: string, i: nat, name: string)
    requires name != "" && (forall c :: c in name ==> 'A' <= c <= 'Z') && At(b, i, name)
    requires i + |name| < |b| && !IsLetter(b[i + |name|])
    ensures IsLetter(b[i]) && Word(b, i) == Got(Atom(name), i + |name|, |name|)
  {
    hide RunEnd;
    RunEndAt(b, i, name, IsLetter);
    assert b[i] == b[i..i + |name|][0] == name[0] && name[0] in name;
    forall k | 0 <= k < |name| ensures UpperAll(name)[k] == name[k] {
      assert name[k] in name;
    }
    assert UpperAll(name) == name;
  }

  lemma StringRoundTrip(b: string, i: nat, v: string, lim: Limits)
    requires Quotable(v) && At(b, i, EncodeString(v))
    ensures b[i] == '"' && Quoted(b, i, i + 1, "", lim) == Got(Str(v, false), i + |EncodeString(v)|, |EncodeString(v)|)
  {
    hide Escape, Quoted;
    AtSplit(b, i, "\"" + Escape(v), "\"");
    AtSplit(b, i, "\"", Escape(v));
    assert b[i] == b[i..i + 1][0];
    QuotedRoundTrip(b, i, i + 1, "", v, lim);
    assert "" + v == v;
  }

  /** Reading back one written token gives the token, wherever it stands, if a space or CR ends it. */
  lemma TokenRoundTrip(b: string, i: nat, t: Token, lim: Limits)
    requires Sendable(t, lim) && At(b, i, Written(t)) && i + |Written(t)| < |b|
    requires b[i + |Written(t)|] == ' ' || b[i + |Written(t)|] == '\r'
    ensures ScanToken(b, i, lim) == Got(t, i + |Written(t)|, Cost(t))
  {
    hide Quoted, Literal, Escape, Numeric, Word, At, Numeral;
    match t
    case Atom(name) => WordRoundTrip(b, i, name);
    case Num(value) => NumericRoundTrip(b, i, value);
    case Str(text, true) => LiteralRoundTrip(b, i, text, lim);
    case Str(text, false) => StringRoundTrip(b, i, text, lim);
  }

  function Arguments(tokens: seq<Token>): (s: string) {
    if tokens == [] then "\r\n" else " " + Written(tokens[0]) + Arguments(tokens[1..])
  }

  function ArgumentsCost(tokens: seq<Token>): (n: nat) {
    if tokens == [] then 0 else 1 + Cost(tokens[0]) + ArgumentsCost(tokens[1..])
  }

  function LineText(tokens: seq<Token>): (s: string)
    requires tokens != []
  {
    Written(tokens[0]) + Arguments(tokens[1..])
  }

  lemma ArgumentsStart(tokens: seq<Token>)
    ensures |Arguments(tokens)| >= 2 && (Arguments(tokens)[0] == ' ' || Arguments(tokens)[0] == '\r')
  {
    hide Written;
    if tokens != [] { assert |Arguments(tokens[1..])| >= 1 by { ArgumentsStart(tokens[1..]); } }
  }

  /** A token and the arguments after it, where they stand. */
  lemma TokenThenArguments(b: string, i: nat, t: Token, rest: seq<Token>, lim: Limits)
    requires Sendable(t, lim) && At(b, i, Written(t) + Arguments(rest))
    ensures At(b, i + |Written(t)|, Arguments(rest))
    ensures i < |b| && ScanToken(b, i, lim) == Got(t, i + |Written(t)|, Cost(t))
    ensures b[i] != '\r' && b[i] != '\n'
  {
    hide Written, ScanToken, Arguments, Cost;
    AtSplit(b, i, Written(t), Arguments(rest));
    ArgumentsStart(rest);
    var j := i + |Written(t)|;
    assert b[j] == b[j..j + |Arguments(rest)|][0];
    TokenRoundTrip(b, i, t, lim);
    NotControl(b, i, t, lim);
  }

  lemma NotControl(b: string, i: nat, t: Token, lim: Limits)
    requires i < |b| && ScanToken(b, i, lim).Got?
    ensures b[i] != '\r' && b[i] != '\n'
  {
  }

  lemma ArgumentStep(b: string, i: nat, octets: nat, done: seq<Token>, t: Token, rest: seq<Token>, lim: Limits)
    requires done != [] && Sendable(t, lim) && At(b, i, " " + Written(t) + Arguments(rest)) && octets <= lim.maxLine
    ensures var next := i + 1 + |Written(t)|;
            At(b, next, Arguments(rest)) &&
            ParseFrom(b, i, octets, done, lim) == ParseFrom(b, next, octets + 1 + Cost(t), done + [t], lim)
  {
    hide ScanToken, Written, Sendable, Cost, FailAt, Arguments;
    assert " " + Written(t) + Arguments(rest) == " " + (Written(t) + Arguments(rest));
    AtSplit(b, i, " ", Written(t) + Arguments(rest));
    assert b[i] == b[i..i + 1][0] == ' ';
    TokenThenArguments(b, i + 1, t, rest, lim);
  }

  lemma {:induction false} ArgumentsRoundTrip(b: string, i: nat, octets: nat, done: seq<Token>, tokens: seq<Token>,
          lim: Limits)
    requires done != [] && forall t :: t in tokens ==> Sendable(t, lim)
    requires At(b, i, Arguments(tokens)) && octets + ArgumentsCost(tokens) <= lim.maxLine
    ensures ParseFrom(b, i, octets, done, lim) == Line(done + tokens, i + |Arguments(tokens)|)
    decreases |tokens|
  {
    hide ScanToken, Written, Sendable, Cost, FailAt;
    if tokens == [] {
      var end := "\r\n";
      assert b[i] == b[i..i + 2][0] == end[0] && b[i + 1] == b[i..i + 2][1] == end[1];
      assert done + tokens == done;
    } else {
      var t, rest := tokens[0], tokens[1..];
      ArgumentStep(b, i, octets, done, t, rest, lim);
      ArgumentsRoundTrip(b, i + 1 + |Written(t)|, octets + 1 + Cost(t), done + [t], rest, lim);
      assert (done + [t]) + rest == done + tokens;
    }
  }

  /** A line of tokens, written out and read back with anything after it, is those tokens and ends where it ended. */
  lemma LineRoundTrip(tokens: seq<Token>, after: string, lim: Limits)
    requires tokens != [] && forall t :: t in tokens ==> Sendable(t, lim)
    requires Cost(tokens[0]) + ArgumentsCost(tokens[1..]) <= lim.maxLine
    ensures ParseBuffer(LineText(tokens) + after, lim) == Line(tokens, |LineText(tokens)|)
  {
    hide ScanToken, Written, Sendable, Cost, Arguments;
    var b, t, rest := LineText(tokens) + after, tokens[0], tokens[1..];
    assert b[0..|LineText(tokens)|] == LineText(tokens);
    TokenThenArguments(b, 0, t, rest, lim);
    ArgumentsRoundTrip(b, |Written(t)|, Cost(t), [t], rest, lim);
    assert [] + [t] == [t] && [t] + rest == tokens;
  }

  // --- the reader as the session holds it -------------------------------------------------------

  class CommandReader {
    var buf: string
    var skipBytes: nat
    var discardLine: bool
    var fatal: bool
    const limits: Limits

    ghost function Value(): Reader
      reads this
    {
      Reader(buf, skipBytes, discardLine, fatal)
    }

    constructor (limits: Limits)
      ensures Value() == NEW_READER && this.limits == limits
    {
      this.limits := limits;
      buf, skipBytes, discardLine, fatal := "", 0, false, false;
    }

    method Push(chunk: string)
      modifies this
      ensures Value() == Pushed(old(Value()), chunk)
    {
      if fatal { return; }
      var kept := chunk;
      if skipBytes > 0 {
        var n := if skipBytes < |chunk| then skipBytes else |chunk|;
        skipBytes := skipBytes - n;
        kept := chunk[n..];
        if |kept| == 0 { return; }
      }
      buf := buf + kept;
    }

    method Next() returns (event: Option<Event>)
      modifies this
      ensures match Look(old(Value()), limits)
              case Wait(q) => event == None && Value() == q
              case Emit(e, q) => event == Some(e) && Value() == q
              case Starve(q) => event == Some(Error(LineTooLong, true)) && Value() == q
    {
      hide ParseBuffer, LookDiscarding;
      if fatal || skipBytes > 0 { return None; }
      if discardLine {
        event := DropLine();
        return;
      }
      if buf == "" { return None; }
      var p := ParseLine();
      match p
      case NeedMore => return None;
      case Starved =>
        event := Die(LineTooLong);
      case Line(tokens, end) =>
        buf := buf[end..];
        return Some(Command(tokens));
      case Failure(problem, None) =>
        event := Die(problem);
      case Failure(problem, Some(e)) =>
        buf := buf[e..];
        return Some(Error(problem, false));
      case Oversize(dataStart, size) =>
        if size > limits.hardLiteral {
          event := Die(LiteralRefused);
          return;
        }
        var available := |buf| - dataStart;
        if available >= size {
          buf := buf[dataStart + size..];
        } else {
          skipBytes := size - available;
          buf := "";
        }
        discardLine := true;
        if skipBytes > 0 { return None; }
        event := DropLine();
    }

    method DropLine() returns (event: Option<Event>)
      requires !fatal && skipBytes == 0 && discardLine
      modifies this
      ensures match LookDiscarding(old(Value()), limits)
              case Wait(q) => event == None && Value() == q
              case Emit(e, q) => event == Some(e) && Value() == q
              case Starve(q) => event == Some(Error(LineTooLong, true)) && Value() == q
    {
      match LineEnd(buf, 0)
      case None =>
        if |buf| > limits.maxLine {
          event := Die(LineTooLong);
        } else {
          event := None;
        }
      case Some(e) =>
        buf := buf[e..];
        discardLine := false;
        event := Some(Error(LiteralDropped, false));
    }

    method Die(problem: Problem) returns (event: Option<Event>)
      modifies this
      ensures event == Some(Error(problem, true)) && Value() == Dead(old(Value()))
    {
      fatal := true;
      buf := "";
      event := Some(Error(problem, true));
    }

    method ParseLine() returns (p: Parse)
      ensures p == ParseBuffer(buf, limits)
    {
      hide ScanToken, FailAt, LineEnd;
      var b, tokens: seq<Token>, i, octets := buf, [], 0, 0;
      while true
        invariant i <= |b|
        invariant ParseFrom(b, i, octets, tokens, limits) == ParseBuffer(b, limits)
        decreases |b| - i
      {
        if octets > limits.maxLine { return Failure(LineTooLong, None); }
        if i >= |b| { return if |b| > limits.maxLine + limits.maxLiteral then Starved else NeedMore; }
        if b[i] == '\r' {
          if i + 1 >= |b| { return NeedMore; }
          if b[i + 1] != '\n' { return Failure(BareCR, Some(i + 1)); }
          if tokens == [] { return FailAt(b, EmptyLine, i, limits); }
          return Line(tokens, i + 2);
        }
        if b[i] == '\n' { return Failure(BareLF, Some(i + 1)); }
        if tokens != [] {
          if b[i] != ' ' { return FailAt(b, ExpectedSpace, i, limits); }
          i, octets := i + 1, octets + 1;
          if i >= |b| { return NeedMore; }
        }
        var r := ReadToken(b, i);
        match r
        case Got(token, next, cost) => i, octets, tokens := next, octets + cost, tokens + [token];
        case More => return NeedMore;
        case Endless => return Starved;
        case Bad(problem, at) => return FailAt(b, problem, at, limits);
        case Big(dataStart, size) => return Oversize(dataStart, size);
      }
    }

    method ReadToken(b: string, i: nat) returns (r: Scan)
      requires i < |b|
      ensures r == ScanToken(b, i, limits)
    {
      hide Quoted, RunEnd, LiteralHead;
      if b[i] == '"' {
        r := ReadQuoted(b, i);
      } else if b[i] == '{' {
        var j := SkipRun(b, i + 1, IsDigit);
        if j >= |b| { return More; }
        if j == i + 1 || j - (i + 1) > 10 { return Bad(BadLiteralLength, i); }
        r := LiteralHead(b, i, j, Number(DigitValues(b[i + 1..j])), limits);
      } else if IsDigit(b[i]) {
        var j := SkipRun(b, i, IsDigit);
        if j >= |b| { return More; }
        var value := Number(DigitValues(b[i..j]));
        if j - i > 10 || value > MAX_NUMBER { return Bad(NumberRange, i); }
        r := Got(Num(value), j, j - i);
      } else if IsLetter(b[i]) {
        var j := SkipRun(b, i, IsLetter);
        if j >= |b| { return More; }
        r := Got(Atom(UpperAll(b[i..j])), j, j - i);
      } else {
        r := Bad(Unexpected, i);
      }
    }

    method ReadQuoted(b: string, start: nat) returns (r: Scan)
      requires start < |b|
      ensures r == Quoted(b, start, start + 1, "", limits)
    {
      var out: string, i := "", start + 1;
      while true
        invariant start < i <= |b|
        invariant Quoted(b, start, i, out, limits) == Quoted(b, start, start + 1, "", limits)
        decreases |b| - i
      {
        if i >= |b| { return if i - start > limits.maxLine then Endless else More; }
        var q := b[i];
        if q == '"' { return Got(Str(out, false), i + 1, i + 1 - start); }
        if q == '\r' || q == '\n' || q == '\0' { return Bad(QuotedControl, i); }
        if q == '\\' {
          if i + 1 >= |b| { return More; }
          var e := b[i + 1];
          if e != '"' && e != '\\' { return Bad(BadEscape, i); }
          out, i := out + [e], i + 2;
          continue;
        }
        out, i := out + [q], i + 1;
      }
    }
  }

  method SkipRun(b: string, i: nat, kind: char -> bool) returns (j: nat)
    requires i <= |b|
    ensures j == RunEnd(b, i, kind)
  {
    j := i;
    while j < |b| && kind(b[j])
      invariant i <= j <= |b| && RunEnd(b, j, kind) == RunEnd(b, i, kind)
    {
      j := j + 1;
    }
  }
}
