/**
 A whole ManageSieve session's text: lines of the grammar, bad lines and lines with too large a literal, in any
 order and cut into any chunks, are each read as what they are, and none disturbs the next.
*/
module SieveStream {
  import opened Sets
  import opened Chunks
  import opened ManageSieve
  import opened SieveLimits
  import opened SieveGrammar

  /** What a line is to the reader: a command, a bad line, or one whose last literal is too large. */
  datatype Reading = Read(tokens: seq<Token>) | Rejected | Dropped(tokens: seq<Token>)

  /** A line end, and none before it, nor a literal's brace. */
  ghost predicate OnePlainLine(line: string) {
    && |line| >= 2 && line[|line| - 2] == '\r' && line[|line| - 1] == '\n'
    && forall k :: 0 <= k < |line| - 2 ==> line[k] != '\r' && line[k] != '\n' && line[k] != '{'
  }

  ghost predicate IsBad(line: string, lim: Limits) {
    OnePlainLine(line) && |line| <= lim.maxLine && forall tokens :: !IsLine(line, tokens, lim)
  }

  /** A line of the grammar but for the size of its last literal, which may be dropped. */
  ghost predicate IsTooLarge(line: string, tokens: seq<Token>, lim: Limits) {
    && tokens != []
    && var last := tokens[|tokens| - 1];
       && last.Str? && last.literal && lim.maxLiteral < |last.text| <= lim.hardLiteral
       && IsLine(line, tokens, lim.(maxLiteral := |last.text|)) && |line| - |last.text| <= lim.maxLine
       && forall k :: 0 <= k < |tokens| - 1 ==> DataOctets(tokens[k]) <= lim.maxLiteral
  }

  ghost predicate Reads(line: string, r: Reading, lim: Limits) {
    match r
    case Read(tokens) => IsLine(line, tokens, lim) && LiteralOctets(tokens) <= lim.maxLiteral
    case Rejected => IsBad(line, lim)
    case Dropped(tokens) => IsTooLarge(line, tokens, lim)
  }

  ghost predicate Answers(e: Event, r: Reading) {
    match r
    case Read(tokens) => e == Command(tokens)
    case Rejected => e.Error? && !e.fatal && e.problem != LiteralDropped
    case Dropped(_) => e == Error(LiteralDropped, false)
  }

  function Holding(text: string): (r: Reader) { Reader(text, 0, false, false) }

  // --- bad lines --------------------------------------------------------------------------------

  ghost predicate EndsAt(b: string, n: nat) {
    && n + 1 < |b| && b[n] == '\r' && b[n + 1] == '\n'
    && forall k :: 0 <= k < n ==> b[k] != '\r' && b[k] != '\n' && b[k] != '{'
  }

  lemma {:induction false} RunStops(b: string, n: nat, i: nat, kind: char -> bool)
    requires EndsAt(b, n) && i <= n && !kind('\r')
    ensures i <= RunEnd(b, i, kind) <= n
    decreases n - i
  {
    if i < n { RunStops(b, n, i + 1, kind); }
  }

  lemma {:induction false} QuotedStops(b: string, n: nat, start: nat, i: nat, out: string, lim: Limits)
    requires EndsAt(b, n) && start < i <= n
    ensures match Quoted(b, start, i, out, lim)
            case Got(_, next, cost) => next <= n && cost == next - start
            case Bad(problem, at) => at <= n && problem != LiteralDropped
            case _ => false
    decreases n - i
  {
    if i < n && b[i] != '"' && b[i] != '\0' {
      if b[i] != '\\' {
        QuotedStops(b, n, start, i + 1, out + [b[i]], lim);
      } else if b[i + 1] == '"' || b[i + 1] == '\\' {
        QuotedStops(b, n, start, i + 2, out + [b[i + 1]], lim);
      }
    }
  }

  lemma ScanStops(b: string, n: nat, i: nat, lim: Limits)
    requires EndsAt(b, n) && i <= n
    ensures match ScanToken(b, i, lim)
            case Got(_, next, cost) => next <= n && cost == next - i
            case Bad(problem, at) => i <= at <= n && problem != LiteralDropped
            case _ => false
  {
    hide Quoted, RunEnd;
    if i < n {
      if b[i] == '"' { QuotedStops(b, n, i, i + 1, [], lim); }
      RunStops(b, n, i, IsDigit);
      RunStops(b, n, i, IsLetter);
    }
  }

  lemma FailsThere(b: string, n: nat, problem: Problem, at: nat, lim: Limits)
    requires EndsAt(b, n) && at <= n
    ensures FailAt(b, problem, at, lim) == Failure(problem, Some(n + 2))
  {
    FirstLineEnd(b, at, n);
  }

  /** The reader's answer about a plain line ends with the line, whether it accepts it or not. */
  lemma {:induction false} PlainParses(b: string, n: nat, i: nat, octets: nat, tokens: seq<Token>, lim: Limits)
    requires EndsAt(b, n) && octets <= i <= n <= lim.maxLine
    ensures match ParseFrom(b, i, octets, tokens, lim)
            case Line(_, end) => end == n + 2
            case Failure(problem, resumeAt) => resumeAt == Some(n + 2) && problem != LiteralDropped
            case _ => false
    decreases n - i
  {
    hide ScanToken, FailAt;
    if i == n {
      FailsThere(b, n, EmptyLine, i, lim);
    } else if tokens != [] && b[i] != ' ' {
      FailsThere(b, n, ExpectedSpace, i, lim);
    } else {
      var j := if tokens != [] then i + 1 else i;
      ScanStops(b, n, j, lim);
      match ScanToken(b, j, lim)
      case Got(token, next, cost) => PlainParses(b, n, next, octets + (j - i) + cost, tokens + [token], lim);
      case Bad(problem, at) => FailsThere(b, n, problem, at, lim);
    }
  }

  // --- a literal too large ----------------------------------------------------------------------

  /** What a token is under a smaller limit: the same, or too large. */
  lemma ScanSmaller(b: string, i: nat, lim: Limits, big: Limits)
    requires i < |b| && lim.maxLiteral <= big.maxLiteral && big == lim.(maxLiteral := big.maxLiteral)
    requires ScanToken(b, i, big).Got?
    ensures DataOctets(ScanToken(b, i, big).token) <= ScanToken(b, i, big).next
    ensures var r := ScanToken(b, i, big);
            ScanToken(b, i, lim) == if DataOctets(r.token) <= lim.maxLiteral then r
            else Big(r.next - DataOctets(r.token), DataOctets(r.token))
  {
    hide Quoted, RunEnd, DigitValues;
    if b[i] == '"' { QuotedSmaller(b, i, i + 1, [], lim, big); }
  }

  lemma {:induction false} QuotedSmaller(b: string, start: nat, i: nat, out: string, lim: Limits, big: Limits)
    requires start < i <= |b| && lim.maxLine == big.maxLine
    ensures Quoted(b, start, i, out, lim) == Quoted(b, start, i, out, big)
    ensures Quoted(b, start, i, out, big).Got? ==> DataOctets(Quoted(b, start, i, out, big).token) == 0
    decreases |b| - i
  {
    if i < |b| && b[i] != '"' && b[i] != '\r' && b[i] != '\n' && b[i] != '\0' {
      if b[i] != '\\' {
        QuotedSmaller(b, start, i + 1, out + [b[i]], lim, big);
      } else if i + 1 < |b| && (b[i + 1] == '"' || b[i + 1] == '\\') {
        QuotedSmaller(b, start, i + 2, out + [b[i + 1]], lim, big);
      }
    }
  }

  lemma {:induction false} Extends(b: string, i: nat, octets: nat, done: seq<Token>, lim: Limits)
    requires i <= |b| && ParseFrom(b, i, octets, done, lim).Line?
    ensures done <= ParseFrom(b, i, octets, done, lim).tokens
    decreases |b| - i
  {
    hide ScanToken, FailAt;
    if i < |b| && b[i] != '\r' && b[i] != '\n' && (done == [] || b[i] == ' ') {
      var j := if done != [] then i + 1 else i;
      match ScanToken(b, j, lim)
      case Got(token, next, cost) => Extends(b, next, octets + (j - i) + cost, done + [token], lim);
    }
  }

  lemma {:induction false} TooLargeParses(b: string, i: nat, octets: nat, done: seq<Token>, tokens: seq<Token>,
          end: nat,
          lim: Limits, big: Limits)
    requires i <= |b| && ParseFrom(b, i, octets, done, big) == Line(tokens, end) && |done| < |tokens|
    requires lim.maxLiteral < big.maxLiteral && big == lim.(maxLiteral := big.maxLiteral)
    requires DataOctets(tokens[|tokens| - 1]) > lim.maxLiteral
    requires forall k :: 0 <= k < |tokens| - 1 ==> DataOctets(tokens[k]) <= lim.maxLiteral
    ensures var size := DataOctets(tokens[|tokens| - 1]);
            size + 2 <= end <= |b| && ParseFrom(b, i, octets, done, lim) == Oversize(end - 2 - size, size)
            && b[end - 2] == '\r' && b[end - 1] == '\n'
    decreases |b| - i
  {
    hide ScanToken, FailAt;
    var j := if done != [] then i + 1 else i;
    match ScanToken(b, j, big)
    case Got(token, next, cost) =>
      Extends(b, next, octets + (j - i) + cost, done + [token], big);
      assert token == tokens[|done|];
      ScanSmaller(b, j, lim, big);
      if |done| + 1 < |tokens| {
        TooLargeParses(b, next, octets + (j - i) + cost, done + [token], tokens, end, lim, big);
      } else {
        assert done + [token] == tokens;
        LastEnds(b, next, octets + (j - i) + cost, tokens, end, big);
      }
  }

  lemma LastEnds(b: string, i: nat, octets: nat, tokens: seq<Token>, end: nat, lim: Limits)
    requires tokens != [] && i <= |b| && ParseFrom(b, i, octets, tokens, lim) == Line(tokens, end)
    ensures end == i + 2 && b[i] == '\r' && b[i + 1] == '\n'
  {
    hide ScanToken, FailAt;
    if b[i] != '\r' {
      match ScanToken(b, i + 1, lim)
      case Got(token, next, cost) => Extends(b, next, octets + 1 + cost, tokens + [token], lim);
    }
  }

  // --- one line, and the next -------------------------------------------------------------------

  lemma CommandStep(line: string, rest: string, tokens: seq<Token>, lim: Limits)
    requires Reads(line, Read(tokens), lim)
    ensures Look(Holding(line + rest), lim) == Emit(Command(tokens), Holding(rest)) && LineOk(line + rest, lim)
  {
    hide ParseBuffer, IsLine, LiteralOctets;
    var b := line + rest;
    assert b[..|line|] == line && b[|line|..] == rest;
    AcceptsExactly(b, tokens, |line|, lim);
  }

  lemma BadStep(line: string, rest: string, lim: Limits)
    requires Reads(line, Rejected, lim)
    ensures var s := Look(Holding(line + rest), lim);
            s.Emit? && Answers(s.event, Rejected) && s.after == Holding(rest)
    ensures LineOk(line + rest, lim)
  {
    var b, n := line + rest, |line| - 2;
    assert b[..|line|] == line && b[|line|..] == rest;
    assert EndsAt(b, n);
    hide ParseFrom, IsLine;
    PlainParses(b, n, 0, 0, [], lim);
    match ParseBuffer(b, lim)
    case Line(tokens, end) => AcceptsExactly(b, tokens, end, lim);
    case _ =>
  }

  lemma DroppedStep(line: string, rest: string, tokens: seq<Token>, lim: Limits)
    requires Reads(line, Dropped(tokens), lim)
    ensures Look(Holding(line + rest), lim) == Emit(Error(LiteralDropped, false), Holding(rest))
    ensures LineOk(line + rest, lim)
  {
    hide ParseFrom, IsLine;
    var b, size := line + rest, |tokens[|tokens| - 1].text|;
    assert b[..|line|] == line && b[|line|..] == rest;
    var big := lim.(maxLiteral := size);
    AcceptsExactly(b, tokens, |line|, big);
    TooLargeParses(b, 0, 0, [], tokens, |line|, lim, big);
    var tail := b[|line| - 2..];
    assert tail[0] == '\r' && tail[1] == '\n' && tail[2..] == rest;
  }

  lemma LineStep(line: string, rest: string, r: Reading, lim: Limits)
    requires Reads(line, r, lim)
    ensures var s := Look(Holding(line + rest), lim);
            s.Emit? && Answers(s.event, r) && s.after == Holding(rest)
    ensures LineOk(line + rest, lim)
  {
    hide Look, LineOk, IsLine, IsBad, IsTooLarge;
    match r
    case Read(tokens) => CommandStep(line, rest, tokens, lim);
    case Rejected => BadStep(line, rest, lim);
    case Dropped(tokens) => DroppedStep(line, rest, tokens, lim);
  }

  /** The events of a reader that has all the text: one per line, in order, and nothing is left over. */
  lemma {:induction false} LinesAreRead(lines: seq<string>, rs: seq<Reading>, lim: Limits)
    requires |lines| == |rs| && forall i :: 0 <= i < |lines| ==> Reads(lines[i], rs[i], lim)
    ensures var d := Drain(Holding(Concat(lines)), lim);
            && |d.events| == |lines| && (forall i :: 0 <= i < |lines| ==> Answers(d.events[i], rs[i]))
            && d.reader == NEW_READER && !d.starved
    ensures WithinLimits(Holding(Concat(lines)), lim)
    decreases |lines|
  {
    if lines != [] {
      hide Look, LineOk, Reads, Answers;
      var rest := Concat(lines[1..]);
      LineStep(lines[0], rest, rs[0], lim);
      LinesAreRead(lines[1..], rs[1..], lim);
      var d, q := Drain(Holding(Concat(lines)), lim), Drain(Holding(rest), lim);
      assert d.events[1..] == q.events;
      forall i | 0 <= i < |lines| ensures Answers(d.events[i], rs[i]) {
        if i > 0 { assert Answers(q.events[i - 1], rs[1..][i - 1]); }
      }
    }
  }

  /** However the text of a session is cut into chunks, its lines give one event each, in order. */
  lemma SessionIsRead(chunks: seq<string>, lines: seq<string>, rs: seq<Reading>, lim: Limits)
    requires |lines| == |rs| && forall i :: 0 <= i < |lines| ==> Reads(lines[i], rs[i], lim)
    requires Concat(chunks) == Concat(lines)
    ensures var d := Feed(NEW_READER, chunks, lim);
            && |d.events| == |lines| && (forall i :: 0 <= i < |lines| ==> Answers(d.events[i], rs[i]))
            && d.reader == NEW_READER && !d.starved
  {
    hide Drain, Feed, WithinLimits, Fits, Reads, Answers;
    var text := Concat(lines);
    assert Pushed(NEW_READER, text) == Holding(text) by { assert "" + text[0..] == text; }
    LinesAreRead(lines, rs, lim);
    WithinLimitsFits(Holding(text), lim);
    FittingChunksDoNotMatter(chunks, lim);
  }
}
