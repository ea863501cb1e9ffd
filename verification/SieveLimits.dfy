/**
 When chunks matter to the ManageSieve reader. A text fits the limits when, line by line, a bad line ends
 near the column that is bad, a quoted string closes near its start, and no string ends past both limits
 together. The reader starves on no chunking exactly when the text fits; and the events are the same for
 every chunking exactly when each line fits up to one that is closed as too long however it arrives.
*/
module SieveLimits {
  import opened Chunks
  import opened Decimal
  import opened ManageSieve

  // --- one line ---------------------------------------------------------------------------------

  /** The line's end is seen before more than the line limit has come since this column. */
  predicate EndsNear(c: string, at: nat, lim: Limits)
    requires at <= |c|
  {
    match LineEnd(c, at)
    case Some(e) => e - at <= lim.maxLine + 1
    case None => |c| - at <= lim.maxLine
  }

  /** The octet that ends a quoted string or makes it bad, or where its text runs out. */
  function QuotedReach(c: string, i: nat): (k: nat)
    requires i <= |c|
    ensures i <= k <= |c|
    decreases |c| - i
  {
    if i >= |c| || c[i] == '"' || c[i] == '\r' || c[i] == '\n' || c[i] == '\0' then i
    else if c[i] != '\\' then QuotedReach(c, i + 1)
    else if i + 1 < |c| && (c[i + 1] == '"' || c[i + 1] == '\\') then QuotedReach(c, i + 2)
    else i
  }

  predicate TokenFits(c: string, i: nat, lim: Limits)
    requires i < |c|
  {
    && (c[i] == '"' ==> QuotedReach(c, i + 1) - i <= lim.maxLine)
    && match ScanToken(c, i, lim) case Bad(_, at) => EndsNear(c, at, lim) case _ => true
  }

  predicate EndsInString(tokens: seq<Token>) { tokens != [] && tokens[|tokens| - 1].Str? }

  /** From octet i on, with these tokens read, the line fits. */
  predicate FitsFrom(c: string, i: nat, octets: nat, tokens: seq<Token>, lim: Limits)
    requires i <= |c|
    decreases |c| - i
  {
    octets <= lim.maxLine ==>
      && (EndsInString(tokens) ==> i <= lim.maxLine + lim.maxLiteral)
      && (i < |c| && c[i] != '\r' && c[i] != '\n' ==>
            if tokens != [] && c[i] != ' ' then EndsNear(c, i, lim)
            else
              var j := if tokens != [] then i + 1 else i;
              j < |c| ==>
                && TokenFits(c, j, lim)
                && match ScanToken(c, j, lim)
                   case Got(token, next, cost) => FitsFrom(c, next, octets + (j - i) + cost, tokens + [token], lim)
                   case _ => true)
  }

  predicate LineFits(b: string, lim: Limits) {
    && FitsFrom(b, 0, 0, [], lim)
    && match ParseBuffer(b, lim)
       case Oversize(dataStart, size) =>
         size > lim.hardLiteral || |b| < dataStart + size || EndsNear(b[dataStart + size..], 0, lim)
       case _ => true
  }

  // --- line ends of a prefix --------------------------------------------------------------------

  lemma {:induction false} LineEndPrefix(b: string, c: string, from: nat)
    requires b <= c && LineEnd(c, from).Some? && LineEnd(c, from).value <= |b|
    ensures LineEnd(b, from) == LineEnd(c, from)
    decreases |c| - from
  {
    if !(c[from] == '\r' && c[from + 1] == '\n') { LineEndPrefix(b, c, from + 1); }
  }

  /** Where the last octet of the line end is still missing. */
  function Edge(c: string, at: nat): (n: nat)
    ensures at < |c| ==> at < n <= |c|
  {
    match LineEnd(c, at) case Some(e) => e - 1 case None => |c|
  }

  lemma NoEndYet(b: string, c: string, at: nat)
    requires b <= c && |b| <= Edge(c, at)
    ensures LineEnd(b, at).None?
  {
    if LineEnd(b, at).Some? { LineEndStable(b, c, at); }
  }

  lemma {:induction false} EndsPast(c: string, at: nat, m: nat)
    requires at <= m < |c| && forall k :: at <= k < m ==> !(c[k] == '\r' && c[k + 1] == '\n')
    ensures Edge(c, at) > m
    decreases m - at
  {
    if at < m { EndsPast(c, at + 1, m); }
  }

  /** A bad column starves some prefix exactly when the line does not end near it. */
  lemma NearWaits(b: string, c: string, problem: Problem, at: nat, lim: Limits)
    requires b <= c && at <= |b| && EndsNear(c, at, lim)
    ensures FailAt(b, problem, at, lim) != Starved
  {
    if LineEnd(c, at).Some? && LineEnd(c, at).value <= |b| { LineEndPrefix(b, c, at); }
  }

  lemma FarStarves(c: string, problem: Problem, at: nat, lim: Limits)
    requires at < |c| && !EndsNear(c, at, lim)
    ensures FailAt(c[..Edge(c, at)], problem, at, lim) == Starved
  {
    NoEndYet(c[..Edge(c, at)], c, at);
  }

  // --- tokens of a prefix -----------------------------------------------------------------------

  lemma {:induction false} QuotedInReach(b: string, c: string, start: nat, i: nat, out: string, lim: Limits)
    requires b <= c && start < i <= |b| && QuotedReach(c, i) - start <= lim.maxLine
    ensures Quoted(b, start, i, out, lim) != Endless
    decreases |b| - i
  {
    if i < |b| && b[i] != '"' && b[i] != '\r' && b[i] != '\n' && b[i] != '\0' {
      if b[i] != '\\' {
        QuotedInReach(b, c, start, i + 1, out + [b[i]], lim);
      } else if i + 1 < |b| && (b[i + 1] == '"' || b[i + 1] == '\\') {
        QuotedInReach(b, c, start, i + 2, out + [b[i + 1]], lim);
      }
    }
  }

  lemma {:induction false} QuotedEndless(c: string, start: nat, i: nat, out: string, lim: Limits)
    requires start < i <= |c| && QuotedReach(c, i) - start > lim.maxLine
    ensures Quoted(c[..QuotedReach(c, i)], start, i, out, lim) == Endless
    decreases |c| - i
  {
    if QuotedReach(c, i) > i {
      if c[i] != '\\' {
        QuotedEndless(c, start, i + 1, out + [c[i]], lim);
      } else {
        QuotedEndless(c, start, i + 2, out + [c[i + 1]], lim);
      }
    }
  }

  /** The part of the text that a token, or the reason there is none, was read from. */
  predicate Enough(b: string, c: string, r: Scan) {
    match r
    case Got(token, next, _) => next < |b| || (next == |b| && token.Str?)
    case Bad(_, at) => Edge(c, at) <= |b|
    case Big(dataStart, _) => dataStart <= |b|
    case _ => false
  }

  lemma {:induction false} QuotedFound(b: string, c: string, start: nat, i: nat, out: string, lim: Limits)
    requires b <= c && start < i <= |b| && Enough(b, c, Quoted(c, start, i, out, lim))
    ensures ScanDecided(Quoted(b, start, i, out, lim))
    decreases |b| - i
  {
    var r := Quoted(c, start, i, out, lim);
    if i < |b| && c[i] != '"' && c[i] != '\r' && c[i] != '\n' && c[i] != '\0' {
      if c[i] != '\\' {
        QuotedFound(b, c, start, i + 1, out + [c[i]], lim);
      } else if c[i + 1] == '"' || c[i + 1] == '\\' {
        QuotedFound(b, c, start, i + 2, out + [c[i + 1]], lim);
      } else {
        EndsPast(c, i, i + 1);
      }
    }
  }

  lemma {:induction false} RunEndPrefix(b: string, c: string, i: nat, kind: char -> bool)
    requires b <= c && i <= |b| && RunEnd(c, i, kind) < |b|
    ensures RunEnd(b, i, kind) == RunEnd(c, i, kind)
    decreases |b| - i
  {
    if kind(c[i]) { RunEndPrefix(b, c, i + 1, kind); }
  }

  lemma LiteralHeadFound(b: string, c: string, start: nat, digitsEnd: nat, size: nat, lim: Limits)
    requires b <= c && start < digitsEnd < |b| && Enough(b, c, LiteralHead(c, start, digitsEnd, size, lim))
    requires forall k :: start <= k < digitsEnd ==> c[k] != '\r'
    ensures ScanDecided(LiteralHead(b, start, digitsEnd, size, lim))
  {
    var j := if c[digitsEnd] == '+' then digitsEnd + 1 else digitsEnd;
    if j < |c| && c[j] != '}' {
      EndsPast(c, start, j);
    } else if j + 1 < |c| && c[j + 1] != '\r' {
      EndsPast(c, j, j + 1);
    } else if j + 2 < |c| && c[j + 2] != '\n' {
      EndsPast(c, j, j + 2);
    }
  }

  lemma LiteralFound(b: string, c: string, i: nat, lim: Limits)
    requires b <= c && i < |b| && c[i] == '{' && Enough(b, c, Literal(c, i, lim))
    ensures ScanDecided(Literal(b, i, lim))
  {
    hide RunEnd, LiteralHead;
    var j := RunEnd(c, i + 1, IsDigit);
    assert forall k :: i <= k < j ==> c[k] != '\r';
    if j < |b| {
      RunEndPrefix(b, c, i + 1, IsDigit);
      assert b[i + 1..j] == c[i + 1..j];
      if 0 < j - (i + 1) <= 10 { LiteralHeadFound(b, c, i, j, Number(DigitValues(c[i + 1..j])), lim); }
    } else {
      LiteralPast(c, i, j, lim);
    }
  }

  lemma LiteralPast(c: string, i: nat, j: nat, lim: Limits)
    requires i < |c| && c[i] == '{' && j == RunEnd(c, i + 1, IsDigit) && ScanDecided(Literal(c, i, lim))
    ensures match Literal(c, i, lim)
            case Got(_, next, _) => next > j
            case Bad(_, at) => Edge(c, at) > j
            case Big(dataStart, _) => dataStart > j
  {
    hide RunEnd;
    match Literal(c, i, lim)
    case Bad(_, at) =>
      assert forall k :: at <= k < j ==> c[k] != '\r';
      if at <= j { EndsPast(c, at, j); }
    case _ =>
  }

  /** That part of the text already gives the token. */
  lemma ScanFound(b: string, c: string, i: nat, lim: Limits)
    requires b <= c && i < |b| && Enough(b, c, ScanToken(c, i, lim))
    ensures ScanToken(b, i, lim) == ScanToken(c, i, lim)
  {
    hide RunEnd, Quoted, Literal;
    if c[i] == '"' {
      QuotedFound(b, c, i, i + 1, [], lim);
    } else if c[i] == '{' {
      LiteralFound(b, c, i, lim);
    } else if IsDigit(c[i]) {
      NumericFound(b, c, i);
    } else if IsLetter(c[i]) {
      RunEndPrefix(b, c, i, IsLetter);
    }
    ScanStable(b, c, i, lim);
  }

  lemma NumericFound(b: string, c: string, i: nat)
    requires b <= c && i < |b| && IsDigit(c[i]) && Enough(b, c, Numeric(c, i))
    ensures ScanDecided(Numeric(b, i))
  {
    hide RunEnd;
    var j := RunEnd(c, i, IsDigit);
    assert forall k :: i <= k < j ==> c[k] != '\r';
    if j < |c| { EndsPast(c, i, j); }
    RunEndPrefix(b, c, i, IsDigit);
  }

  // --- a line fits exactly when no prefix starves -----------------------------------------------

  /** The loop over a line asks for octet i of this prefix: an atom or number ends only before an octet. */
  predicate Reached(b: string, i: nat, tokens: seq<Token>) {
    i < |b| || (i == |b| && (if tokens == [] then i == 0 else EndsInString(tokens)))
  }

  lemma TokenWaits(b: string, c: string, i: nat, lim: Limits)
    requires b <= c && i < |b| && TokenFits(c, i, lim)
    ensures match ScanToken(b, i, lim)
            case Bad(problem, at) => FailAt(b, problem, at, lim) != Starved
            case Endless => false
            case _ => true
  {
    hide Quoted, Literal, EndsNear, FailAt, Numeric, Word;
    if b[i] == '"' { QuotedInReach(b, c, i, i + 1, [], lim); }
    NotEndless(b, i, lim);
    match ScanToken(b, i, lim)
    case Bad(problem, at) =>
      ScanStable(b, c, i, lim);
      NearWaits(b, c, problem, at, lim);
    case _ =>
  }

  lemma NotEndless(b: string, i: nat, lim: Limits)
    requires i < |b|
    ensures ScanToken(b, i, lim) == Endless ==> b[i] == '"'
  {
  }

  lemma {:induction false} FittingWaits(b: string, c: string, i: nat, octets: nat, tokens: seq<Token>, lim: Limits)
    requires b <= c && Reached(b, i, tokens) && FitsFrom(c, i, octets, tokens, lim)
    ensures ParseFrom(b, i, octets, tokens, lim) != Starved
    decreases |b| - i
  {
    hide ScanToken, FailAt, EndsNear, TokenFits;
    if i < |b| && octets <= lim.maxLine {
      if b[i] == '\r' {
        if i + 1 < |b| && b[i + 1] == '\n' && tokens == [] { CrlfFails(b, i, lim); }
      } else if b[i] != '\n' {
        if tokens != [] && b[i] != ' ' {
          NearWaits(b, c, ExpectedSpace, i, lim);
        } else {
          var j := if tokens != [] then i + 1 else i;
          if j < |b| {
            TokenWaits(b, c, j, lim);
            match ScanToken(b, j, lim)
            case Got(token, next, cost) =>
              ScanStable(b, c, j, lim);
              GotReaches(b, j, lim);
              FittingWaits(b, c, next, octets + (j - i) + cost, tokens + [token], lim);
            case _ =>
          }
        }
      }
    }
  }

  lemma GotReaches(b: string, i: nat, lim: Limits)
    requires i < |b| && ScanToken(b, i, lim).Got?
    ensures var r := ScanToken(b, i, lim); r.next < |b| || r.token.Str?
  {
    hide RunEnd;
    if b[i] == '"' { QuotedGives(b, i, i + 1, [], lim); }
  }

  lemma {:induction false} QuotedGives(b: string, start: nat, i: nat, out: string, lim: Limits)
    requires start < i <= |b| && Quoted(b, start, i, out, lim).Got?
    ensures Quoted(b, start, i, out, lim).token.Str?
    decreases |b| - i
  {
    if b[i] == '"' {
    } else if b[i] == '\\' {
      QuotedGives(b, start, i + 2, out + [b[i + 1]], lim);
    } else {
      QuotedGives(b, start, i + 1, out + [b[i]], lim);
    }
  }

  lemma CrlfFails(b: string, i: nat, lim: Limits)
    requires i + 1 < |b| && b[i] == '\r' && b[i + 1] == '\n'
    ensures FailAt(b, EmptyLine, i, lim) != Starved
  {
  }

  lemma TokenStarves(c: string, i: nat, lim: Limits) returns (n: nat)
    requires i < |c| && !TokenFits(c, i, lim)
    ensures i < n <= |c|
    ensures match ScanToken(c[..n], i, lim)
            case Bad(problem, at) => FailAt(c[..n], problem, at, lim) == Starved
            case Endless => true
            case _ => false
  {
    hide Quoted, Literal, EndsNear, FailAt, Numeric, Word;
    if c[i] == '"' && QuotedReach(c, i + 1) - i > lim.maxLine {
      n := QuotedReach(c, i + 1);
      QuotedEndless(c, i, i + 1, [], lim);
    } else {
      var problem, at := ScanToken(c, i, lim).problem, ScanToken(c, i, lim).at;
      n := Edge(c, at);
      ScanFound(c[..n], c, i, lim);
      FarStarves(c, problem, at, lim);
    }
  }

  lemma {:induction false} UnfitStarves(c: string, i: nat, octets: nat, tokens: seq<Token>, lim: Limits)
          returns (n: nat)
    requires i <= |c| && (tokens == [] ==> i == 0) && !FitsFrom(c, i, octets, tokens, lim)
    ensures n <= |c| && Reached(c[..n], i, tokens) && ParseFrom(c[..n], i, octets, tokens, lim) == Starved
    decreases |c| - i
  {
    hide ScanToken, FailAt, EndsNear, TokenFits;
    if EndsInString(tokens) && i > lim.maxLine + lim.maxLiteral {
      n := i;
    } else if tokens != [] && c[i] != ' ' {
      n := Edge(c, i);
      FarStarves(c, ExpectedSpace, i, lim);
    } else {
      var j := if tokens != [] then i + 1 else i;
      if !TokenFits(c, j, lim) {
        n := TokenStarves(c, j, lim);
      } else {
        n := RestStarves(c, i, j, octets, tokens, lim);
      }
    }
  }

  lemma {:induction false} RestStarves(c: string, i: nat, j: nat, octets: nat, tokens: seq<Token>, lim: Limits)
          returns (n: nat)
    requires i <= j < |c| && j == (if tokens != [] then i + 1 else i) && octets <= lim.maxLine
    requires c[i] != '\r' && c[i] != '\n' && (tokens != [] ==> c[i] == ' ')
    requires ScanToken(c, j, lim).Got?
    requires var r := ScanToken(c, j, lim); !FitsFrom(c, r.next, octets + (j - i) + r.cost, tokens + [r.token], lim)
    ensures n <= |c| && Reached(c[..n], i, tokens) && ParseFrom(c[..n], i, octets, tokens, lim) == Starved
    decreases |c| - i, 0
  {
    hide ScanToken, FailAt, EndsNear, TokenFits, FitsFrom;
    var r := ScanToken(c, j, lim);
    n := UnfitStarves(c, r.next, octets + (j - i) + r.cost, tokens + [r.token], lim);
    ScanFound(c[..n], c, j, lim);
  }

  /** A line fits exactly when the reader waits for it, however little of it has come. */
  lemma FitsIsWaitedFor(c: string, lim: Limits)
    ensures FitsFrom(c, 0, 0, [], lim) <==> forall n :: 0 <= n <= |c| ==> ParseBuffer(c[..n], lim) != Starved
  {
    hide FitsFrom, ParseFrom;
    if FitsFrom(c, 0, 0, [], lim) {
      forall n | 0 <= n <= |c| ensures ParseBuffer(c[..n], lim) != Starved {
        FittingWaits(c[..n], c, 0, 0, [], lim);
      }
    } else {
      var n := UnfitStarves(c, 0, 0, [], lim);
      assert ParseBuffer(c[..n], lim) == Starved;
    }
  }

  // --- a decided answer is decided by the text up to its end, or one past it -----------------------

  /** A bare carriage return is known by the octet after it. */
  predicate Covers(b: string, p: Parse) {
    match p
    case Line(_, end) => end <= |b|
    case Failure(_, Some(e)) => e < |b|
    case Oversize(dataStart, _) => dataStart <= |b|
    case _ => false
  }

  lemma {:induction false} ParseFound(b: string, c: string, i: nat, octets: nat, tokens: seq<Token>, lim: Limits)
    requires b <= c && i <= |b| && Covers(b, ParseFrom(c, i, octets, tokens, lim))
    ensures ParseFrom(b, i, octets, tokens, lim) == ParseFrom(c, i, octets, tokens, lim)
    decreases |b| - i
  {
    hide ScanToken, LineEnd;
    if c[i] == '\r' {
      if c[i + 1] == '\n' && tokens == [] { LineEndPrefix(b, c, i); }
    } else if c[i] != '\n' {
      if tokens != [] && c[i] != ' ' {
        LineEndPrefix(b, c, i);
      } else {
        var j := if tokens != [] then i + 1 else i;
        ScanFound(b, c, j, lim);
        match ScanToken(c, j, lim)
        case Got(token, next, cost) => ParseFound(b, c, next, octets + (j - i) + cost, tokens + [token], lim);
        case Bad(_, at) => LineEndPrefix(b, c, at);
        case Big(_, _) =>
      }
    }
  }

  lemma AnswerFound(b: string, c: string, lim: Limits)
    requires b <= c && Covers(b, ParseBuffer(c, lim))
    ensures ParseBuffer(b, lim) == ParseBuffer(c, lim)
  {
    ParseFound(b, c, 0, 0, [], lim);
  }

  // --- a whole text -----------------------------------------------------------------------------

  predicate StepFits(r: Reader, lim: Limits) {
    r.fatal || r.skip > 0 || (if r.discard then EndsNear(r.buf, 0, lim) else LineFits(r.buf, lim))
  }

  /** Line by line, the text in this reader fits. */
  predicate Fits(r: Reader, lim: Limits)
    decreases Fuel(r)
  {
    StepFits(r, lim) && match Look(r, lim) case Emit(_, q) => Fits(q, lim) case _ => true
  }

  const TOO_LONG: Event := Error(LineTooLong, true)

  /** Every line fits, up to one for which all of the text closes the connection as too long. */
  predicate Steady(r: Reader, lim: Limits)
    decreases Fuel(r)
  {
    match Look(r, lim)
    case Wait(_) => StepFits(r, lim)
    case Starve(_) => true
    case Emit(e, q) => if StepFits(r, lim) then Steady(q, lim) else e == TOO_LONG
  }

  /** A reader with less of the same text. */
  ghost predicate Shorter(p: Reader, r: Reader) { p == r.(buf := p.buf) && p.buf <= r.buf }

  /** With less text a step gives the same event, or waits. */
  ghost predicate SameOrWait(a: Step, b: Step) {
    a.Wait? || (a.Emit? && b.Emit? && a.event == b.event && Shorter(a.after, b.after))
  }

  lemma PrefixTail(b: string, c: string, e: nat)
    requires b <= c && e <= |b|
    ensures b[e..] <= c[e..]
  {
  }

  lemma RestPrefix(p: Reader, r: Reader, lim: Limits)
    requires Shorter(p, r) && !r.fatal && r.skip == 0 && r.discard && EndsNear(r.buf, 0, lim)
    ensures SameOrWait(LookDiscarding(p, lim), LookDiscarding(r, lim))
  {
    if LineEnd(p.buf, 0).Some? {
      LineEndStable(p.buf, r.buf, 0);
      PrefixTail(p.buf, r.buf, LineEnd(p.buf, 0).value);
    } else if LineEnd(r.buf, 0).Some? && LineEnd(r.buf, 0).value <= |p.buf| {
      LineEndPrefix(p.buf, r.buf, 0);
    }
  }

  lemma LinePrefix(p: Reader, r: Reader, lim: Limits)
    requires Shorter(p, r) && !r.fatal && r.skip == 0 && !r.discard && p.buf != "" && LineFits(r.buf, lim)
    ensures SameOrWait(Look(p, lim), Look(r, lim))
  {
    hide ParseBuffer, LookDiscarding, EndsNear, FitsFrom;
    var b, c := p.buf, r.buf;
    FitsIsWaitedFor(c, lim);
    assert c[..|b|] == b;
    if Decided(ParseBuffer(b, lim)) {
      ParseStable(b, c[|b|..], lim);
      assert b + c[|b|..] == c;
      match ParseBuffer(b, lim)
      case Line(_, end) => PrefixTail(b, c, end);
      case Failure(_, None) =>
      case Failure(_, Some(e)) => PrefixTail(b, c, e);
      case Oversize(dataStart, size) =>
        if size <= lim.hardLiteral && |b| >= dataStart + size {
          PrefixTail(b, c, dataStart + size);
          RestPrefix(p.(buf := b[dataStart + size..], discard := true),
            r.(buf := c[dataStart + size..], discard := true), lim);
        }
    }
  }

  lemma StepPrefix(p: Reader, r: Reader, lim: Limits)
    requires Shorter(p, r) && StepFits(r, lim)
    ensures SameOrWait(Look(p, lim), Look(r, lim))
  {
    hide ParseBuffer, LookDiscarding, EndsNear, LineFits;
    if !(p.fatal || p.skip > 0) {
      if p.discard {
        RestPrefix(p, r, lim);
      } else if p.buf != "" {
        LinePrefix(p, r, lim);
      }
    }
  }

  lemma {:induction false} DrainPrefix(p: Reader, r: Reader, lim: Limits)
    requires Shorter(p, r) && Fits(r, lim)
    ensures !Drain(p, lim).starved
    decreases Fuel(r)
  {
    hide Look, LookDiscarding, StepFits;
    StepPrefix(p, r, lim);
    match Look(p, lim)
    case Wait(_) =>
    case Emit(_, q) => DrainPrefix(q, Look(r, lim).after, lim);
  }

  // --- a text that does not fit starves on some prefix ------------------------------------------

  lemma RestStarvesAt(r: Reader, lim: Limits) returns (p: Reader)
    requires !r.fatal && r.skip == 0 && r.discard && !EndsNear(r.buf, 0, lim)
    ensures Shorter(p, r) && LookDiscarding(p, lim).Starve?
  {
    var n := Edge(r.buf, 0);
    NoEndYet(r.buf[..n], r.buf, 0);
    p := r.(buf := r.buf[..n]);
  }

  lemma OversizeStarvesAt(r: Reader, dataStart: nat, size: nat, lim: Limits) returns (p: Reader)
    requires !r.fatal && r.skip == 0 && !r.discard && ParseBuffer(r.buf, lim) == Oversize(dataStart, size)
    requires size <= lim.hardLiteral && dataStart + size <= |r.buf| && !EndsNear(r.buf[dataStart + size..], 0, lim)
    ensures Shorter(p, r) && Look(p, lim).Starve?
  {
    hide ParseBuffer, EndsNear, LookDiscarding;
    var end := dataStart + size;
    var tail := RestStarvesAt(r.(buf := r.buf[end..], discard := true), lim);
    p := r.(buf := r.buf[..end] + tail.buf);
    assert r.buf == r.buf[..end] + r.buf[end..] && p.buf[end..] == tail.buf;
    AnswerFound(p.buf, r.buf, lim);
  }

  lemma StepStarvesAt(r: Reader, lim: Limits) returns (p: Reader)
    requires !StepFits(r, lim)
    ensures Shorter(p, r) && Look(p, lim).Starve?
  {
    hide ParseBuffer, EndsNear, LookDiscarding, FitsFrom;
    if r.discard {
      p := RestStarvesAt(r, lim);
    } else {
      FitsIsWaitedFor(r.buf, lim);
      if n :| 0 <= n <= |r.buf| && ParseBuffer(r.buf[..n], lim) == Starved {
        p := r.(buf := r.buf[..n]);
        StarvedHasText(p.buf, lim);
      } else {
        var o := ParseBuffer(r.buf, lim);
        p := OversizeStarvesAt(r, o.dataStart, o.size, lim);
      }
    }
  }

  lemma StarvedHasText(b: string, lim: Limits)
    requires ParseBuffer(b, lim) == Starved
    ensures b != ""
  {
  }

  /** Less text after a step, and so much less before it: the step is the same. */
  lemma StepBefore(r: Reader, after: Reader, lim: Limits) returns (p: Reader)
    requires Look(r, lim).Emit? && !Look(r, lim).after.fatal && Shorter(after, Look(r, lim).after) && after.buf != ""
    ensures Shorter(p, r) && Look(p, lim) == Emit(Look(r, lim).event, after)
  {
    hide ParseBuffer, LookDiscarding;
    if r.discard {
      p := DiscardBefore(r, after, lim);
    } else {
      match ParseBuffer(r.buf, lim)
      case Line(_, end) => p := LineBefore(r, end, after, lim);
      case Failure(_, Some(e)) => p := LineBefore(r, e, after, lim);
      case Oversize(dataStart, size) =>
        var end := dataStart + size;
        var tail := DiscardBefore(r.(buf := r.buf[end..], discard := true), after, lim);
        p := r.(buf := r.buf[..end] + tail.buf);
        assert r.buf == r.buf[..end] + r.buf[end..] && p.buf[end..] == tail.buf;
        AnswerFound(p.buf, r.buf, lim);
    }
  }

  lemma DiscardBefore(r: Reader, after: Reader, lim: Limits) returns (p: Reader)
    requires !r.fatal && r.skip == 0 && r.discard && LookDiscarding(r, lim).Emit?
    requires Shorter(after, LookDiscarding(r, lim).after)
    ensures Shorter(p, r) && LookDiscarding(p, lim) == Emit(LookDiscarding(r, lim).event, after)
  {
    var e := LineEnd(r.buf, 0).value;
    p := r.(buf := r.buf[..e] + after.buf);
    assert r.buf == r.buf[..e] + r.buf[e..] && p.buf[e..] == after.buf;
    LineEndPrefix(p.buf, r.buf, 0);
  }

  lemma LineBefore(r: Reader, end: nat, after: Reader, lim: Limits) returns (p: Reader)
    requires !r.fatal && r.skip == 0 && !r.discard && r.buf != "" && Look(r, lim).Emit? && 0 < end <= |r.buf|
    requires match ParseBuffer(r.buf, lim)
             case Line(_, e) => e == end
             case Failure(_, Some(e)) => e == end
             case _ => false
    requires Shorter(after, Look(r, lim).after) && after.buf != ""
    ensures Shorter(p, r) && Look(p, lim) == Emit(Look(r, lim).event, after)
  {
    hide ParseBuffer, LookDiscarding;
    p := r.(buf := r.buf[..end] + after.buf);
    assert r.buf == r.buf[..end] + r.buf[end..] && p.buf[end..] == after.buf;
    AnswerFound(p.buf, r.buf, lim);
  }

  lemma {:induction false} UnfitReaderStarves(r: Reader, lim: Limits) returns (p: Reader)
    requires !Fits(r, lim)
    ensures Shorter(p, r) && Drain(p, lim).starved
    decreases Fuel(r)
  {
    hide Look, StepFits;
    if !StepFits(r, lim) {
      p := StepStarvesAt(r, lim);
    } else {
      var q := Look(r, lim).after;
      FatalFits(q, lim);
      var after := UnfitReaderStarves(q, lim);
      NoTextWaits(after, lim);
      p := StepBefore(r, after, lim);
    }
  }

  lemma FatalFits(r: Reader, lim: Limits)
    ensures r.fatal ==> Fits(r, lim) && Steady(r, lim)
  {
  }

  lemma {:induction false} NoTextWaits(r: Reader, lim: Limits)
    requires Drain(r, lim).starved
    ensures r.buf != ""
  {
    hide ParseBuffer;
  }

  lemma ShorterIsPrefix(p: Reader, s: string)
    requires Shorter(p, Pushed(NEW_READER, s))
    ensures p == Pushed(NEW_READER, s[..|p.buf|]) && |p.buf| <= |s|
  {
    assert "" + s[0..] == s;
    assert p.buf == s[..|p.buf|] && "" + s[..|p.buf|][0..] == s[..|p.buf|];
  }

  lemma PrefixIsShorter(s: string, n: nat)
    requires n <= |s|
    ensures Shorter(Pushed(NEW_READER, s[..n]), Pushed(NEW_READER, s))
  {
    assert "" + s[0..] == s && "" + s[..n][0..] == s[..n];
  }

  /** No chunking of a text starves the reader exactly when the text fits the limits. */
  lemma FitsExactly(s: string, lim: Limits)
    ensures NeverStarves(s, lim) <==> Fits(Pushed(NEW_READER, s), lim)
    ensures (forall chunks :: Concat(chunks) == s ==> !Feed(NEW_READER, chunks, lim).starved)
            <==> Fits(Pushed(NEW_READER, s), lim)
  {
    hide Fits, Drain, Feed, Pushed;
    var r := Pushed(NEW_READER, s);
    if Fits(r, lim) {
      forall n | 0 <= n <= |s| ensures !Drain(Pushed(NEW_READER, s[..n]), lim).starved {
        PrefixIsShorter(s, n);
        DrainPrefix(Pushed(NEW_READER, s[..n]), r, lim);
      }
    } else {
      var p := UnfitReaderStarves(r, lim);
      ShorterIsPrefix(p, s);
    }
    StarvesExactly(s, lim);
  }

  /** Every chunking of a text that fits gives the events of the text, and never closes the connection for it. */
  lemma FittingChunksDoNotMatter(chunks: seq<string>, lim: Limits)
    requires Fits(Pushed(NEW_READER, Concat(chunks)), lim)
    ensures Feed(NEW_READER, chunks, lim) == Drain(Pushed(NEW_READER, Concat(chunks)), lim)
    ensures !Feed(NEW_READER, chunks, lim).starved
  {
    hide Fits, Drain, Feed, Pushed;
    FitsExactly(Concat(chunks), lim);
    ChunksDoNotMatter(chunks, lim);
  }

  // --- the events -------------------------------------------------------------------------------

  lemma {:induction false} DeadFeeds(r: Reader, chunks: seq<string>, lim: Limits)
    requires r.fatal
    ensures Feed(r, chunks, lim) == Run([], r, false)
    decreases |chunks|
  {
    if chunks != [] { DeadFeeds(r, chunks[1..], lim); }
  }

  lemma {:induction false} StarvedIsDead(r: Reader, lim: Limits)
    requires Drain(r, lim).starved
    ensures Drain(r, lim).reader.fatal
    decreases Fuel(r)
  {
    match Look(r, lim)
    case Starve(_) =>
    case Emit(_, q) => StarvedIsDead(q, lim);
  }

  /** A steady text that starves early has given its events already. */
  lemma {:induction false} SteadyPrefix(r: Reader, x: string, lim: Limits)
    requires Steady(Pushed(r, x), lim) && Drain(r, lim).starved
    ensures Drain(r, lim).events == Drain(Pushed(r, x), lim).events
    decreases Fuel(r)
  {
    hide Look, StepFits, Pushed;
    match Look(r, lim)
    case Starve(_) => StarvedSteady(r, x, lim);
    case Emit(e, q) =>
      LookStable(r, x, lim);
      if !StepFits(Pushed(r, x), lim) { TooLongIsDead(r, lim); } else { SteadyPrefix(q, x, lim); }
  }

  lemma TooLongIsDead(r: Reader, lim: Limits)
    requires Look(r, lim).Emit? && Look(r, lim).event == TOO_LONG
    ensures !Drain(r, lim).starved
  {
    hide ParseBuffer;
    assert Look(r, lim).after.fatal;
  }

  lemma StarvedSteady(r: Reader, x: string, lim: Limits)
    requires Look(r, lim).Starve? && Steady(Pushed(r, x), lim)
    ensures Drain(Pushed(r, x), lim).events == [TOO_LONG]
  {
    hide StepFits, ParseBuffer, LookDiscarding;
    var all := Pushed(r, x);
    assert Shorter(r, all);
    if StepFits(all, lim) { StepPrefix(r, all, lim); }
    match Look(all, lim)
    case Starve(_) =>
    case Emit(e, q) => DeadAfter(all, lim);
    case Wait(_) =>
  }

  lemma DeadAfter(r: Reader, lim: Limits)
    requires Look(r, lim).Emit? && Look(r, lim).event == TOO_LONG
    ensures Drain(r, lim).events == [TOO_LONG]
  {
    hide ParseBuffer;
    var q := Look(r, lim).after;
    assert q.fatal;
    assert Drain(q, lim).events == [];
  }

  lemma {:induction false} SteadyFeed(seen: string, chunks: seq<string>, lim: Limits)
    requires Steady(Pushed(NEW_READER, seen + Concat(chunks)), lim)
    ensures var d := Drain(Pushed(NEW_READER, seen), lim);
            d.events + Feed(d.reader, chunks, lim).events
              == Drain(Pushed(NEW_READER, seen + Concat(chunks)), lim).events
    decreases |chunks|
  {
    hide Drain, Pushed, Look, Steady;
    var s, d := seen + Concat(chunks), Drain(Pushed(NEW_READER, seen), lim);
    if chunks == [] {
      assert s == seen;
    } else if d.starved {
      PushTwice(seen, Concat(chunks));
      SteadyPrefix(Pushed(NEW_READER, seen), Concat(chunks), lim);
      StarvedIsDead(Pushed(NEW_READER, seen), lim);
      DeadFeeds(d.reader, chunks, lim);
    } else {
      var next := seen + chunks[0];
      assert s == next + Concat(chunks[1..]);
      SteadyFeed(next, chunks[1..], lim);
      PushTwice(seen, chunks[0]);
      DrainStable(Pushed(NEW_READER, seen), chunks[0], lim);
    }
  }

  /** Some prefix of a text that is not steady closes the connection, with events that differ from the text's. */
  lemma {:induction false} UnsteadyDiffers(r: Reader, lim: Limits) returns (p: Reader)
    requires !Steady(r, lim)
    ensures Shorter(p, r) && Drain(p, lim).starved && Drain(p, lim).events != Drain(r, lim).events
    decreases Fuel(r)
  {
    hide Look, StepFits;
    if !StepFits(r, lim) {
      p := StepStarvesAt(r, lim);
      assert Drain(p, lim).events == [TOO_LONG];
      assert Look(r, lim).Emit? ==> Drain(r, lim).events[0] == Look(r, lim).event;
    } else {
      var q := Look(r, lim).after;
      FatalFits(q, lim);
      var after := UnsteadyDiffers(q, lim);
      NoTextWaits(after, lim);
      p := StepBefore(r, after, lim);
      assert Drain(p, lim).events[1..] == Drain(after, lim).events && Drain(r, lim).events[1..] == Drain(q, lim).events;
    }
  }

  lemma CutDiffers(p: Reader, s: string, lim: Limits)
    requires Shorter(p, Pushed(NEW_READER, s)) && Drain(p, lim).starved
    requires Drain(p, lim).events != Drain(Pushed(NEW_READER, s), lim).events
    ensures exists chunks :: Concat(chunks) == s
              && Feed(NEW_READER, chunks, lim).events != Drain(Pushed(NEW_READER, s), lim).events
  {
    hide Drain, Pushed;
    ShorterIsPrefix(p, s);
    var n := |p.buf|;
    var chunks := [s[..n], s[n..]];
    ConcatPair(s[..n], s[n..]);
    StarvedIsDead(p, lim);
    DeadFeeds(Drain(p, lim).reader, chunks[1..], lim);
    assert Feed(NEW_READER, chunks, lim).events == Drain(p, lim).events + [];
  }

  /** Every chunking of a text gives the events of the text in one chunk exactly when the text is steady. */
  lemma EventsExactly(s: string, lim: Limits)
    ensures Steady(Pushed(NEW_READER, s), lim) <==>
            forall chunks :: Concat(chunks) == s ==>
              Feed(NEW_READER, chunks, lim).events == Drain(Pushed(NEW_READER, s), lim).events
  {
    hide Steady, Drain, Feed, Pushed;
    if Steady(Pushed(NEW_READER, s), lim) {
      forall chunks | Concat(chunks) == s
        ensures Feed(NEW_READER, chunks, lim).events == Drain(Pushed(NEW_READER, s), lim).events
      {
        assert "" + Concat(chunks) == s;
        SteadyFeed("", chunks, lim);
        NothingYet(lim);
      }
    } else {
      var p := UnsteadyDiffers(Pushed(NEW_READER, s), lim);
      CutDiffers(p, s, lim);
    }
  }

  lemma NothingYet(lim: Limits)
    ensures Drain(Pushed(NEW_READER, ""), lim) == Run([], NEW_READER, false)
  {
  }

  /** A bad line past the limit whose end never comes starves the reader, and yet gives one event however it is cut. */
  lemma UnfinishedBadLine(chunks: seq<string>, lim: Limits)
    requires Concat(chunks) == Repeat('!', lim.maxLine + 1)
    ensures !NeverStarves(Concat(chunks), lim) && Feed(NEW_READER, chunks, lim).events == [TOO_LONG]
  {
    hide Drain, Feed, Pushed, Steady;
    var bad := Concat(chunks);
    BadLineStarves(bad, lim);
    assert bad[..|bad|] == bad;
    EventsExactly(bad, lim);
  }

  lemma BadLineStarves(bad: string, lim: Limits)
    requires bad == Repeat('!', lim.maxLine + 1)
    ensures var r := Pushed(NEW_READER, bad);
            Steady(r, lim) && Drain(r, lim).starved && Drain(r, lim).events == [TOO_LONG]
  {
    hide LookDiscarding, StepFits;
    var r := Pushed(NEW_READER, bad);
    assert r == NEW_READER.(buf := bad);
    NoLineEnd(bad, 0);
    assert ParseBuffer(bad, lim) == Starved;
    hide ParseBuffer;
    assert Look(r, lim) == Starve(Dead(r));
  }

  // --- text within the limits as they are documented --------------------------------------------

  function LiteralOctets(tokens: seq<Token>): (n: nat) {
    if tokens == [] then 0
    else LiteralOctets(tokens[..|tokens| - 1]) + DataOctets(tokens[|tokens| - 1])
  }

  function DataOctets(t: Token): (n: nat) {
    if t.Str? && t.literal then |t.text| else 0
  }

  /** A decided answer about a line whose literals together, and whose bad end, keep to the limits. */
  predicate Roomy(p: Parse, lim: Limits) {
    match p
    case Line(tokens, _) => LiteralOctets(tokens) <= lim.maxLiteral
    case Failure(_, Some(e)) => e <= lim.maxLine
    case Oversize(dataStart, _) => dataStart <= lim.maxLine
    case _ => false
  }

  /** What a token takes of the text is what it costs and the octets of its literal. */
  lemma ScanAccounts(c: string, i: nat, lim: Limits)
    requires i < |c| && ScanToken(c, i, lim).Got?
    ensures var r := ScanToken(c, i, lim);
            r.next == i + r.cost + DataOctets(r.token)
  {
    hide RunEnd;
    if c[i] == '"' { QuotedAccounts(c, i, i + 1, [], lim); }
  }

  lemma {:induction false} QuotedAccounts(c: string, start: nat, i: nat, out: string, lim: Limits)
    requires start < i <= |c|
    ensures match Quoted(c, start, i, out, lim)
            case Got(token, next, cost) =>
              next == start + cost == QuotedReach(c, i) + 1 && DataOctets(token) == 0
            case Bad(_, at) => at == QuotedReach(c, i)
            case _ => true
    decreases |c| - i
  {
    if i < |c| && c[i] != '"' && c[i] != '\r' && c[i] != '\n' && c[i] != '\0' {
      if c[i] != '\\' {
        QuotedAccounts(c, start, i + 1, out + [c[i]], lim);
      } else if i + 1 < |c| && (c[i + 1] == '"' || c[i + 1] == '\\') {
        QuotedAccounts(c, start, i + 2, out + [c[i + 1]], lim);
      }
    }
  }

  lemma LiteralOctetsAppend(tokens: seq<Token>, t: Token)
    ensures LiteralOctets(tokens + [t]) == LiteralOctets(tokens) + DataOctets(t)
  {
    assert (tokens + [t])[..|tokens|] == tokens;
  }

  lemma RoomyToken(c: string, i: nat, lim: Limits)
    requires i < |c| && ScanDecided(ScanToken(c, i, lim))
    requires match ScanToken(c, i, lim)
             case Got(_, _, cost) => cost <= lim.maxLine
             case Bad(problem, at) => Roomy(FailAt(c, problem, at, lim), lim)
             case _ => true
    ensures TokenFits(c, i, lim)
  {
    hide Literal, Numeric, Word, Quoted;
    if c[i] == '"' {
      QuotedAccounts(c, i, i + 1, [], lim);
      NotBig(c, i, i + 1, [], lim);
    }
  }

  lemma {:induction false} NotBig(c: string, start: nat, i: nat, out: string, lim: Limits)
    requires start < i <= |c|
    ensures !Quoted(c, start, i, out, lim).Big?
    decreases |c| - i
  {
    if i < |c| && c[i] != '"' && c[i] != '\r' && c[i] != '\n' && c[i] != '\0' {
      if c[i] != '\\' {
        NotBig(c, start, i + 1, out + [c[i]], lim);
      } else if i + 1 < |c| && (c[i + 1] == '"' || c[i + 1] == '\\') {
        NotBig(c, start, i + 2, out + [c[i + 1]], lim);
      }
    }
  }

  /** A line whose answer keeps to the limits fits. */
  lemma {:induction false} RoomyFits(c: string, i: nat, octets: nat, tokens: seq<Token>, lim: Limits)
    requires i <= |c| && i == octets + LiteralOctets(tokens) && Roomy(ParseFrom(c, i, octets, tokens, lim), lim)
    ensures FitsFrom(c, i, octets, tokens, lim)
    ensures octets <= lim.maxLine && (LiteralOctets(tokens) <= lim.maxLiteral || i <= lim.maxLine)
    decreases |c| - i
  {
    hide ScanToken, LiteralOctets, TokenFits;
    if i < |c| && c[i] != '\r' && c[i] != '\n' && (tokens == [] || c[i] == ' ') {
      var j := if tokens != [] then i + 1 else i;
      match ScanToken(c, j, lim)
      case Got(token, next, cost) =>
        ScanAccounts(c, j, lim);
        LiteralOctetsAppend(tokens, token);
        RoomyFits(c, next, octets + (j - i) + cost, tokens + [token], lim);
        RoomyToken(c, j, lim);
      case Bad(_, _) => RoomyToken(c, j, lim);
      case Big(_, _) => RoomyToken(c, j, lim);
    }
  }

  predicate LineOk(b: string, lim: Limits) {
    match ParseBuffer(b, lim)
    case NeedMore => |b| <= lim.maxLine
    case Oversize(dataStart, size) =>
      && dataStart <= lim.maxLine
      && (size > lim.hardLiteral || |b| < dataStart + size || EndsNear(b[dataStart + size..], 0, lim))
    case p => Roomy(p, lim)
  }

  /** Line by line, the text in this reader keeps to the limits. */
  predicate WithinLimits(r: Reader, lim: Limits)
    decreases Fuel(r)
  {
    && (r.fatal || r.skip > 0 || (if r.discard then EndsNear(r.buf, 0, lim) else r.buf == "" || LineOk(r.buf, lim)))
    && match Look(r, lim) case Emit(_, q) => WithinLimits(q, lim) case _ => true
  }

  lemma LineOkFits(b: string, lim: Limits)
    requires LineOk(b, lim)
    ensures LineFits(b, lim)
  {
    hide FitsFrom, ParseFrom, EndsNear;
    if ParseBuffer(b, lim).NeedMore? {
      FitsIsWaitedFor(b, lim);
      forall n | 0 <= n <= |b| ensures ParseBuffer(b[..n], lim) != Starved {
        ShortWaits(b[..n], lim);
      }
    } else {
      RoomyFits(b, 0, 0, [], lim);
    }
  }

  lemma ShortWaits(b: string, lim: Limits)
    requires |b| <= lim.maxLine
    ensures ParseBuffer(b, lim) != Starved
  {
    if ParseBuffer(b, lim) == Starved { ParseFromStarved(b, 0, 0, [], lim); }
  }

  /** A text that keeps to the limits fits, so its chunks never matter. */
  lemma {:induction false} WithinLimitsFits(r: Reader, lim: Limits)
    requires WithinLimits(r, lim)
    ensures Fits(r, lim)
    decreases Fuel(r)
  {
    hide Look, LineOk, LineFits, EndsNear;
    if LineOk(r.buf, lim) { LineOkFits(r.buf, lim); }
    if r.buf == "" { EmptyFits(lim); }
    match Look(r, lim)
    case Emit(_, q) => WithinLimitsFits(q, lim);
    case _ =>
  }

  lemma EmptyFits(lim: Limits)
    ensures LineFits("", lim)
  {
  }
}
