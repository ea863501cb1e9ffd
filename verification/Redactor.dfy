/**
 Redaction of SASL exchanges in session transcripts (apps/submission/src/transcript.ts): replies are
 matched to client lines by counting. The wire gives the ground truth, the tap sees its two
 directions in any order in which a reply is observed after the line it answers.
*/
module Redactor {
  import opened Sets

  const REDACTED := "[redacted]"

  function UpperChar(c: char): char {
    if 'a' <= c <= 'z' then (c as int - 32) as char else c
  }

  predicate IsDigit(c: char) {
    '0' <= c <= '9'
  }

  /** `^AUTH(?:[ \t]|$)`, case-insensitively. */
  predicate IsAuthCommand(line: string) {
    && |line| >= 4
    && UpperChar(line[0]) == 'A' && UpperChar(line[1]) == 'U' && UpperChar(line[2]) == 'T' && UpperChar(line[3]) == 'H'
    && (|line| == 4 || line[4] == ' ' || line[4] == '\t')
  }

  /** The code of the last line of a reply: three digits, then a space or the end. */
  function FinalCode(line: string): (r: Option<string>) {
    if |line| >= 3 && IsDigit(line[0]) && IsDigit(line[1]) && IsDigit(line[2]) && (|line| == 3 || line[3] == ' ')
    then Some(line[..3]) else None
  }

  // --- the AUTH line itself ---------------------------------------------------------------------

  predicate IsBlank(c: char) {
    c == ' ' || c == '\t'
  }

  function SkipBlanks(line: string): (r: string)
    ensures |r| <= |line|
    ensures r != [] ==> !IsBlank(r[0])
  {
    if line != [] && IsBlank(line[0]) then SkipBlanks(line[1..]) else line
  }

  function Word(line: string): (r: string)
    ensures |r| <= |line|
  {
    if line == [] || IsBlank(line[0]) then [] else [line[0]] + Word(line[1..])
  }

  predicate IsMechanismChar(c: char) {
    'A' <= c <= 'Z' || 'a' <= c <= 'z' || IsDigit(c) || c == '_' || c == '-'
  }

  predicate LooksLikeMechanism(s: string) {
    1 <= |s| <= 40 && forall c :: c in s ==> IsMechanismChar(c)
  }

  /** The verb, the mechanism if it looks like one, and whether anything followed. */
  function SummarizeAuth(line: string): (r: string)
    requires IsAuthCommand(line)
  {
    var rest := SkipBlanks(line[4..]);
    if rest == [] then "AUTH"
    else
      var mechanism := Word(rest);
      var shown := if LooksLikeMechanism(mechanism) then mechanism else REDACTED;
      "AUTH " + shown + if SkipBlanks(rest[|mechanism|..]) != [] then " " + REDACTED else ""
  }

  lemma {:induction false} WordStops(word: string, tail: string)
    requires (forall c :: c in word ==> !IsBlank(c)) && tail != [] && IsBlank(tail[0])
    ensures Word(word + tail) == word
  {
    if word == [] {
      assert word + tail == tail;
    } else {
      assert (word + tail)[1..] == word[1..] + tail;
      assert word[0] in word;
      WordStops(word[1..], tail);
    }
  }

  ghost predicate AllBlank(s: string) { forall c :: c in s ==> IsBlank(c) }

  ghost predicate NoBlank(s: string) { forall c :: c in s ==> !IsBlank(c) }

  /** An AUTH line taken apart: the verb in any case, blanks, a mechanism, blanks, and whatever else, blanks or not. */
  ghost predicate AuthParts(line: string, gap: string, mechanism: string, gap2: string, response: string) {
    && IsAuthCommand(line) && line == line[..4] + gap + mechanism + gap2 + response
    && gap != [] && AllBlank(gap) && gap2 != [] && AllBlank(gap2)
    && mechanism != [] && NoBlank(mechanism) && response != [] && !IsBlank(response[0])
  }

  lemma {:induction false} BlanksSkipped(gap: string, rest: string)
    requires AllBlank(gap) && rest != [] && !IsBlank(rest[0])
    ensures SkipBlanks(gap + rest) == rest
  {
    if gap == [] {
      assert gap + rest == rest;
    } else {
      assert (gap + rest)[1..] == gap[1..] + rest && gap[0] in gap;
      BlanksSkipped(gap[1..], rest);
    }
  }

  lemma SummaryOf(line: string, gap: string, mechanism: string, gap2: string, response: string)
    requires AuthParts(line, gap, mechanism, gap2, response)
    ensures SummarizeAuth(line) == "AUTH " + (if LooksLikeMechanism(mechanism) then mechanism else REDACTED)
            + (" " + REDACTED)
  {
    var tail := gap2 + response;
    var rest := mechanism + tail;
    assert line[4..] == gap + rest;
    assert mechanism[0] in mechanism && gap2[0] in gap2;
    BlanksSkipped(gap, rest);
    WordStops(mechanism, tail);
    assert rest[|mechanism|..] == tail;
    BlanksSkipped(gap2, response);
  }

  /**
   What follows the mechanism never shows: any two AUTH lines with the same mechanism and something after
   it are stored alike, however they are spelt and spaced and whatever that something is.
  */
  lemma InitialResponseHidden(line: string, gap: string, gap2: string, secret: string,
      other: string, gap': string, gap2': string, secret': string, mechanism: string)
    requires AuthParts(line, gap, mechanism, gap2, secret) && AuthParts(other, gap', mechanism, gap2', secret')
    ensures SummarizeAuth(line) == SummarizeAuth(other)
  {
    SummaryOf(line, gap, mechanism, gap2, secret);
    SummaryOf(other, gap', mechanism, gap2', secret');
  }

  /** The parts a line has: every AUTH line that does not end with its mechanism can be taken apart. */
  lemma AuthLineHasParts(line: string)
    requires IsAuthCommand(line)
    ensures var rest := SkipBlanks(line[4..]);
            rest != [] && SkipBlanks(rest[|Word(rest)|..]) != [] ==>
              exists gap, gap2 :: AuthParts(line, gap, Word(rest), gap2, SkipBlanks(rest[|Word(rest)|..]))
  {
    var after := line[4..];
    var rest := SkipBlanks(after);
    if rest != [] && SkipBlanks(rest[|Word(rest)|..]) != [] {
      var gap := SkippedBlanks(after);
      WordIsPrefix(rest);
      var tail := rest[|Word(rest)|..];
      var gap2 := SkippedBlanks(tail);
      hide SkipBlanks, Word;
      FiveParts(line, gap, Word(rest), gap2, SkipBlanks(tail));
      assert AuthParts(line, gap, Word(rest), gap2, SkipBlanks(tail));
    }
  }

  lemma FiveParts(line: string, gap: string, word: string, gap2: string, response: string)
    requires |line| >= 4 && line[4..] == gap + (word + (gap2 + response))
    ensures line == line[..4] + gap + word + gap2 + response
  {
    assert line == line[..4] + line[4..];
    assert gap + (word + (gap2 + response)) == gap + word + gap2 + response;
  }

  lemma {:induction false} SkippedBlanks(s: string) returns (gap: string)
    ensures AllBlank(gap) && s == gap + SkipBlanks(s)
  {
    if s != [] && IsBlank(s[0]) {
      var more := SkippedBlanks(s[1..]);
      gap := [s[0]] + more;
      assert s == [s[0]] + s[1..];
    } else {
      gap := [];
    }
  }

  lemma {:induction false} WordIsPrefix(s: string)
    ensures s == Word(s) + s[|Word(s)|..] && NoBlank(Word(s))
    ensures |Word(s)| < |s| ==> IsBlank(s[|Word(s)|])
  {
    if s != [] && !IsBlank(s[0]) {
      WordIsPrefix(s[1..]);
      assert s == [s[0]] + s[1..];
      assert s[|Word(s)|..] == s[1..][|Word(s[1..])|..];
    }
  }

  /** A word that may be shown: a mechanism name of at most 40 letters, digits, hyphens and underscores. */
  ghost predicate Showable(w: string) {
    1 <= |w| <= 40 &&
    forall i :: 0 <= i < |w| ==>
      'a' <= w[i] <= 'z' || 'A' <= w[i] <= 'Z' || '0' <= w[i] <= '9' || w[i] == '-' || w[i] == '_'
  }

  /**
   All that is ever stored of an AUTH line: the verb, its first word if that may be shown and [redacted] if not, and
   [redacted] for anything after it.
  */
  lemma SummaryExact(line: string)
    requires IsAuthCommand(line)
    ensures var rest := SkipBlanks(line[4..]);
            var word := Word(rest);
            var shown := if Showable(word) then word else "[redacted]";
            var more := if AllBlank(rest[|word|..]) then "" else " [redacted]";
            SummarizeAuth(line) == if AllBlank(line[4..]) then "AUTH" else "AUTH " + shown + more
  {
    var rest := SkipBlanks(line[4..]);
    NothingSkipped(line[4..]);
    if rest != [] {
      NothingSkipped(rest[|Word(rest)|..]);
      ShowableIs(Word(rest));
      assert " " + REDACTED == " [redacted]";
    }
  }

  lemma NothingSkipped(s: string)
    ensures SkipBlanks(s) == [] <==> AllBlank(s)
  {
    var gap := SkippedBlanks(s);
    if SkipBlanks(s) == [] {
      assert s == gap;
    } else {
      assert SkipBlanks(s)[0] in s;
    }
  }

  lemma ShowableIs(w: string)
    ensures LooksLikeMechanism(w) <==> Showable(w)
  {
    if LooksLikeMechanism(w) {
      forall i | 0 <= i < |w|
        ensures 'a' <= w[i] <= 'z' || 'A' <= w[i] <= 'Z' || '0' <= w[i] <= '9' || w[i] == '-' || w[i] == '_'
      {
        assert w[i] in w;
      }
    }
  }

  /** Which lines start a SASL exchange: the verb in any case, alone or before a blank. */
  lemma AuthCommandExact(verb: string, rest: string)
    requires |verb| == 4
    ensures IsAuthCommand(verb + rest) <==>
            && verb[0] in "Aa" && verb[1] in "Uu" && verb[2] in "Tt" && verb[3] in "Hh"
            && (rest == [] || rest[0] == ' ' || rest[0] == '\t')
  {
    var line := verb + rest;
    assert forall i :: 0 <= i < 4 ==> line[i] == verb[i];
    assert rest != [] ==> line[4] == rest[0];
  }

  /** Which lines end a reply: a code of three digits alone or before a space, and so no line of the form "250-". */
  lemma FinalCodeExact(code: string, rest: string)
    requires |code| == 3
    ensures FinalCode(code + rest) == Some(code) <==>
            (forall i :: 0 <= i < 3 ==> '0' <= code[i] <= '9') && (rest == [] || rest[0] == ' ')
    ensures FinalCode(code + rest) != Some(code) ==> FinalCode(code + rest) == None
  {
    var line := code + rest;
    assert line[..3] == code && forall i :: 0 <= i < 3 ==> line[i] == code[i];
    assert rest != [] ==> line[3] == rest[0];
    assert code[0] == line[0] && code[1] == line[1] && code[2] == line[2];
  }

  // --- the redactor -----------------------------------------------------------------------------

  datatype Redactor = Redactor(linesSeen: nat, repliesSeen: nat, greetingPending: bool, authFrom: Option<nat>,
      queued: seq<nat>)

  function Incoming(r: Redactor, line: string): (next: (Redactor, string)) {
    var index := r.linesSeen;
    var r' := r.(linesSeen := index + 1);
    var isAuth := IsAuthCommand(line);
    if r.authFrom.Some? then
      (if isAuth then r'.(queued := r.queued + [index]) else r', if line == "*" then "*" else REDACTED)
    else if isAuth then (r'.(authFrom := Some(index)), SummarizeAuth(line))
    else (r', line)
  }

  function After(queued: seq<nat>, answered: nat): (r: seq<nat>)
    ensures forall i :: i in r <==> i in queued && i > answered
  {
    if queued == [] then []
    else (if queued[0] > answered then [queued[0]] else []) + After(queued[1..], answered)
  }

  function Outgoing(r: Redactor, line: string): (next: Redactor) {
    var code := FinalCode(line);
    if code.None? then r
    else if r.greetingPending then r.(greetingPending := false)
    else if r.repliesSeen >= r.linesSeen then r
    else
      var answered := r.repliesSeen;
      var r' := r.(repliesSeen := answered + 1);
      if r.authFrom.None? || answered < r.authFrom.value || code.value == "334" then r'
      else
        var later := After(r.queued, answered);
        if later == [] then r'.(authFrom := None, queued := [])
          else r'.(authFrom := Some(later[0]), queued := later[1..])
  }

  class AuthRedactor {
    var linesSeen: nat
    var repliesSeen: nat
    var greetingPending: bool
    var authFrom: Option<nat>
    var queuedAuth: seq<nat>

    ghost function Value(): (r: Redactor)
      reads this
    {
      Redactor(linesSeen, repliesSeen, greetingPending, authFrom, queuedAuth)
    }

    constructor (expectGreeting: bool)
      ensures Value() == Redactor(0, 0, expectGreeting, None, [])
    {
      linesSeen, repliesSeen, greetingPending, authFrom, queuedAuth := 0, 0, expectGreeting, None, [];
    }

    method RedactIncoming(line: string) returns (shown: string)
      modifies this
      ensures (Value(), shown) == Incoming(old(Value()), line)
    {
      var index := linesSeen;
      linesSeen := linesSeen + 1;
      var isAuth := IsAuthCommand(line);
      if authFrom != None {
        if isAuth {
          queuedAuth := queuedAuth + [index];
        }
        return if line == "*" then "*" else REDACTED;
      }
      if isAuth {
        authFrom := Some(index);
        return SummarizeAuth(line);
      }
      return line;
    }

    /** DATA's message body: answered, never recorded. */
    method NoteBody()
      modifies this`linesSeen
      ensures linesSeen == old(linesSeen) + 1
    {
      linesSeen := linesSeen + 1;
    }

    method ObserveOutgoing(line: string)
      modifies this
      ensures Value() == Outgoing(old(Value()), line)
    {
      var code := FinalCode(line);
      if code == None {
        return;
      }
      if greetingPending {
        greetingPending := false;
        return;
      }
      if repliesSeen >= linesSeen {
        return;
      }
      var answered := repliesSeen;
      repliesSeen := repliesSeen + 1;
      if authFrom == None || answered < authFrom.value {
        return;
      }
      if code.value == "334" {
        return;
      }
      var later := After(queuedAuth, answered);
      if later == [] {
        authFrom, queuedAuth := None, [];
      } else {
        authFrom, queuedAuth := Some(later[0]), later[1..];
      }
    }
  }

  // --- the wire ---------------------------------------------------------------------------------

  datatype Item = Line(text: string) | Body

  /** A final reply and the client item it answers. */
  datatype Reply = Reply(line: nat, text: string)

  /** Items may go unanswered; the replies answer the others, in order. */
  datatype Wire = Wire(items: seq<Item>, replies: seq<Reply>)

  ghost predicate ValidWire(w: Wire) {
    && (forall j :: 0 <= j < |w.replies| ==> w.replies[j].line < |w.items| && FinalCode(w.replies[j].text).Some?)
    && (forall i, j :: 0 <= i < j < |w.replies| ==> w.replies[i].line < w.replies[j].line)
  }

  predicate Continues(r: Reply) {
    FinalCode(r.text) == Some("334")
  }

  /** The AUTH line of the exchange the server is in after its first m replies, if it is in one. */
  function ExchangeAfter(w: Wire, m: nat): (a: Option<nat>)
    requires m <= |w.replies| && ValidWire(w)
  {
    if m == 0 || !Continues(w.replies[m - 1]) then None
    else if ExchangeAfter(w, m - 1).Some? then ExchangeAfter(w, m - 1)
    else
      var i := w.replies[m - 1].line;
      if w.items[i].Line? && IsAuthCommand(w.items[i].text) then Some(i) else None
  }

  /** The first m replies are those to items before i. */
  ghost predicate RepliesBefore(w: Wire, i: nat, m: nat) {
    && m <= |w.replies|
    && (m > 0 ==> w.replies[m - 1].line < i)
    && (m < |w.replies| ==> w.replies[m].line >= i)
  }

  /** Item i reaches the server in the middle of a SASL exchange. */
  ghost predicate IsContinuation(w: Wire, i: nat)
    requires ValidWire(w)
  {
    exists m: nat :: RepliesBefore(w, i, m) && ExchangeAfter(w, m).Some?
  }

  lemma {:induction false} RepliesLag(w: Wire, j: nat)
    requires ValidWire(w) && j < |w.replies|
    ensures j <= w.replies[j].line
  {
    if j > 0 {
      RepliesLag(w, j - 1);
      assert w.replies[j - 1].line < w.replies[j].line;
    }
  }

  /** An exchange open after m replies began at some reply k0, and every reply since continued it. */
  lemma {:induction false} ExchangeBegan(w: Wire, m: nat, k: nat)
    requires ValidWire(w) && m <= |w.replies| && ExchangeAfter(w, m).Some?
    requires k < m && !Continues(w.replies[k])
    ensures ExchangeAfter(w, m).value > k
  {
    if ExchangeAfter(w, m - 1).Some? {
      ExchangeBegan(w, m - 1, k);
    } else {
      RepliesLag(w, m - 1);
      assert k != m - 1;
    }
  }

  lemma {:induction false} ExchangeIsEarlier(w: Wire, m: nat)
    requires ValidWire(w) && 0 < m <= |w.replies| && ExchangeAfter(w, m).Some?
    ensures ExchangeAfter(w, m).value <= w.replies[m - 1].line
    ensures ExchangeAfter(w, m).value < |w.items|
    ensures w.items[ExchangeAfter(w, m).value].Line? && IsAuthCommand(w.items[ExchangeAfter(w, m).value].text)
  {
    if ExchangeAfter(w, m - 1).Some? {
      ExchangeIsEarlier(w, m - 1);
      assert w.replies[m - 2].line < w.replies[m - 1].line;
    }
  }

  // --- the tap ----------------------------------------------------------------------------------

  datatype Event = Client | Server | Greeting(text: string) | Partial(text: string) | Unsolicited(text: string)

  /** i items and k replies seen so far, and what was shown for each item. */
  datatype Tap = Tap(r: Redactor, i: nat, k: nat, shown: seq<Option<string>>)

  /**
   A reply is observed after its line; the greeting, if any, is the first reply; a reply that answers no
   line is observed while none is outstanding.
  */
  ghost predicate Possible(w: Wire, t: Tap, e: Event) {
    match e
    case Client => t.i < |w.items|
    case Server => t.k < |w.replies| && w.replies[t.k].line < t.i && !t.r.greetingPending
    case Greeting(text) => t.r.greetingPending && FinalCode(text).Some?
    case Partial(text) => FinalCode(text).None?
    case Unsolicited(text) => FinalCode(text).Some? && !t.r.greetingPending && t.r.repliesSeen >= t.r.linesSeen
  }

  function TapStep(w: Wire, t: Tap, e: Event): (t': Tap)
    requires e.Client? ==> t.i < |w.items|
    requires e.Server? ==> t.k < |w.replies|
  {
    match e
    case Client =>
      (match w.items[t.i]
       case Line(text) => var (r, shown) := Incoming(t.r, text);
         t.(r := r, i := t.i + 1, shown := t.shown + [Some(shown)])
       case Body => t.(r := t.r.(linesSeen := t.r.linesSeen + 1), i := t.i + 1, shown := t.shown + [None]))
    case Server => t.(r := Outgoing(t.r, w.replies[t.k].text), k := t.k + 1)
    case Greeting(text) => t.(r := Outgoing(t.r, text))
    case Partial(text) => t.(r := Outgoing(t.r, text))
    case Unsolicited(text) => t.(r := Outgoing(t.r, text))
  }

  /** The tap after a schedule; None when the schedule asks for something impossible. */
  ghost function TapRun(w: Wire, t: Tap, es: seq<Event>): Option<Tap> {
    if es == [] then Some(t)
    else
      var n := |es| - 1;
      var mid := TapRun(w, t, es[..n]);
      if mid.Some? && Possible(w, mid.value, es[n]) then Some(TapStep(w, mid.value, es[n])) else None
  }

  function Start(expectGreeting: bool): (t: Tap) {
    Tap(Redactor(0, 0, expectGreeting, None, []), 0, 0, [])
  }

  ghost predicate Tracked(r: Redactor, a: nat) {
    r.authFrom == Some(a) || a in r.queued
  }

  ghost predicate Hidden(shown: Option<string>) {
    shown.None? || shown.value == REDACTED || shown.value == "*"
  }

  ghost predicate InStep(w: Wire, t: Tap) {
    && t.r.linesSeen == t.i == |t.shown| <= |w.items|
    && t.r.repliesSeen == t.k <= |w.replies| && t.k <= t.i
    && (t.k > 0 ==> w.replies[t.k - 1].line < t.i)
    && (t.r.authFrom.Some? ==> t.r.authFrom.value < t.i)
    && (t.r.queued != [] ==> t.r.authFrom.Some?)
    && (forall q :: q in t.r.queued ==> q < t.i)
  }

  /** Every exchange the server is or will be in, whose AUTH line has been seen, is being tracked. */
  ghost predicate Tracking(w: Wire, t: Tap)
    requires ValidWire(w)
  {
    forall m :: t.k <= m <= |w.replies| && ExchangeAfter(w, m).Some? && ExchangeAfter(w, m).value < t.i ==>
      Tracked(t.r, ExchangeAfter(w, m).value)
  }

  ghost predicate Redacting(w: Wire, t: Tap)
    requires ValidWire(w)
  {
    forall i :: 0 <= i < |t.shown| && IsContinuation(w, i) ==> Hidden(t.shown[i])
  }

  /** All lines answered, and the last answer was not 334: nothing is in progress. */
  ghost predicate Settled(w: Wire, t: Tap) {
    0 < t.k == t.i && t.k <= |w.replies| && !Continues(w.replies[t.k - 1]) ==> t.r.authFrom == None
  }

  lemma ClientKeepsTracking(w: Wire, t: Tap)
    requires ValidWire(w) && InStep(w, t) && Tracking(w, t) && t.i < |w.items|
    ensures var t' := TapStep(w, t, Client); InStep(w, t') && Tracking(w, t')
  {
    var t' := TapStep(w, t, Client);
    hide SummarizeAuth;
    hide ExchangeAfter;
    forall m | t'.k <= m <= |w.replies| && ExchangeAfter(w, m).Some? && ExchangeAfter(w, m).value < t'.i
      ensures Tracked(t'.r, ExchangeAfter(w, m).value)
    {
      ExchangeStartsAt(w, m);
      ExchangeIsEarlier(w, m);
    }
  }

  lemma ExchangeStartsAt(w: Wire, m: nat)
    requires ValidWire(w) && m <= |w.replies| && ExchangeAfter(w, m).Some?
    ensures m > 0
  {
  }

  lemma ClientIsRedacted(w: Wire, t: Tap)
    requires ValidWire(w) && InStep(w, t) && Tracking(w, t) && t.i < |w.items| && IsContinuation(w, t.i)
    ensures var t' := TapStep(w, t, Client); Hidden(t'.shown[t.i])
  {
    var m: nat :| RepliesBefore(w, t.i, m) && ExchangeAfter(w, m).Some?;
    ExchangeIsEarlier(w, m);
    assert t.k <= m;
    assert Tracked(t.r, ExchangeAfter(w, m).value);
  }

  lemma ServerKeepsTracking(w: Wire, t: Tap)
    requires ValidWire(w) && InStep(w, t) && Tracking(w, t) && Possible(w, t, Server)
    ensures var t' := TapStep(w, t, Server); InStep(w, t') && Tracking(w, t') && Settled(w, t')
  {
    var t' := TapStep(w, t, Server);
    RepliesLag(w, t.k);
    hide ExchangeAfter;
    forall m | t'.k <= m <= |w.replies| && ExchangeAfter(w, m).Some? && ExchangeAfter(w, m).value < t'.i
      ensures Tracked(t'.r, ExchangeAfter(w, m).value)
    {
      assert Tracked(t.r, ExchangeAfter(w, m).value);
      if !Continues(w.replies[t.k]) {
        ExchangeBegan(w, m, t.k);
        if ExchangeAfter(w, m).value in t.r.queued {
          AfterKeeps(t.r.queued, t.k, ExchangeAfter(w, m).value);
        }
      }
    }
    AfterWithin(t.r.queued, t.k, t.i);
  }

  lemma AfterWithin(queued: seq<nat>, answered: nat, bound: nat)
    requires forall q :: q in queued ==> q < bound
    ensures var later := After(queued, answered);
      && (later != [] ==> answered < later[0] < bound && forall q :: q in later[1..] ==> q < bound)
      && (bound == answered + 1 ==> later == [])
  {
    var later := After(queued, answered);
    assert later != [] ==> later[0] in later;
    assert later != [] ==> forall q :: q in later[1..] ==> q in later;
  }

  lemma AfterKeeps(queued: seq<nat>, answered: nat, a: nat)
    requires a > answered && a in queued
    ensures var later := After(queued, answered); later != [] && (later[0] == a || a in later[1..])
  {
    var later := After(queued, answered);
    assert a in later;
  }

  lemma {:induction false} TapKeeps(w: Wire, expectGreeting: bool, es: seq<Event>, t: Tap)
    requires ValidWire(w) && TapRun(w, Start(expectGreeting), es) == Some(t)
    ensures InStep(w, t) && Tracking(w, t) && Redacting(w, t) && Settled(w, t)
    decreases |es|
  {
    if es != [] {
      var mid := TapRun(w, Start(expectGreeting), es[..|es| - 1]).value;
      TapKeeps(w, expectGreeting, es[..|es| - 1], mid);
      TapStepKeeps(w, mid, es[|es| - 1]);
    }
  }

  lemma ClientKeepsRedacting(w: Wire, t: Tap)
    requires ValidWire(w) && InStep(w, t) && Tracking(w, t) && Redacting(w, t) && t.i < |w.items|
    ensures Redacting(w, TapStep(w, t, Client))
  {
    if IsContinuation(w, t.i) { ClientIsRedacted(w, t); }
    hide IsContinuation;
    hide Incoming;
    var t' := TapStep(w, t, Client);
    assert t'.shown[..|t.shown|] == t.shown;
    forall i | 0 <= i < |t'.shown| && IsContinuation(w, i) ensures Hidden(t'.shown[i]) {
      assert i < |t.shown| ==> t'.shown[i] == t.shown[i];
    }
  }

  lemma TapStepKeeps(w: Wire, t: Tap, e: Event)
    requires ValidWire(w) && Possible(w, t, e)
    requires InStep(w, t) && Tracking(w, t) && Redacting(w, t) && Settled(w, t)
    ensures var t' := TapStep(w, t, e); InStep(w, t') && Tracking(w, t') && Redacting(w, t') && Settled(w, t')
  {
    hide IsContinuation;
    hide Hidden;
    hide ExchangeAfter;
    match e
    case Client =>
      ClientKeepsTracking(w, t);
      ClientKeepsRedacting(w, t);
    case Server => ServerKeepsTracking(w, t);
    case Greeting(text) =>
    case Partial(text) =>
    case Unsolicited(text) =>
  }

  /**
   In every order of observation in which a reply comes after the line it answers, and with any
   number of lines that are never answered, every line of a SASL exchange is shown as [redacted]
   or *.
  */
  lemma ContinuationsRedacted(w: Wire, expectGreeting: bool, es: seq<Event>, t: Tap, i: nat)
    requires ValidWire(w) && TapRun(w, Start(expectGreeting), es) == Some(t)
    requires i < |t.shown| && IsContinuation(w, i)
    ensures Hidden(t.shown[i])
  {
    TapKeeps(w, expectGreeting, es, t);
  }

  /** When every line has been answered and the last answer was not 334, redaction is off. */
  lemma RedactionEnds(w: Wire, expectGreeting: bool, es: seq<Event>, t: Tap)
    requires ValidWire(w) && TapRun(w, Start(expectGreeting), es) == Some(t)
    requires 0 < t.k == t.i && t.k <= |w.replies| && !Continues(w.replies[t.k - 1])
    ensures t.r.authFrom == None
  {
    TapKeeps(w, expectGreeting, es, t);
  }

  /** Where redaction is off, the next line that is no AUTH is shown as it is. */
  lemma ShownAfterwards(w: Wire, expectGreeting: bool, es: seq<Event>, t: Tap)
    requires ValidWire(w) && TapRun(w, Start(expectGreeting), es) == Some(t) && t.i < |w.items|
    requires 0 < t.k == t.i && t.k <= |w.replies| && !Continues(w.replies[t.k - 1])
    requires w.items[t.i].Line? && !IsAuthCommand(w.items[t.i].text)
    ensures TapStep(w, t, Client).shown == t.shown + [Some(w.items[t.i].text)]
  {
    RedactionEnds(w, expectGreeting, es, t);
  }

  /** A session without an AUTH line is stored as it was, line for line. */
  lemma {:induction false} PlainSessionShown(w: Wire, expectGreeting: bool, es: seq<Event>, t: Tap)
    requires ValidWire(w) && TapRun(w, Start(expectGreeting), es) == Some(t)
    requires forall i :: 0 <= i < |w.items| && w.items[i].Line? ==> !IsAuthCommand(w.items[i].text)
    ensures t.r.authFrom == None && |t.shown| == t.i <= |w.items|
    ensures forall i :: 0 <= i < |t.shown| ==>
              t.shown[i] == match w.items[i] case Line(text) => Some(text) case Body => None
    decreases |es|
  {
    if es != [] {
      var n := |es| - 1;
      var mid := TapRun(w, Start(expectGreeting), es[..n]).value;
      PlainSessionShown(w, expectGreeting, es[..n], mid);
    }
  }
}
