/**
 The rewrite of an inbound header block (apps/smtp-in/src/trace-rewrite.ts): an Authentication-Results
 field that claims to be ours is renamed, and nothing else changes. What authserv-id a field value
 names is the answer of a function given to the rewrite.
*/
module TraceRewrite {
  import opened Sets
  import opened Chunks
  import Flags
  import HC = HeaderCapture

  const OUR_FIELD_KEY: string := "authentication-results"
  const RENAMED_FIELD_NAME: string := "X-Original-Authentication-Results"

  /** The authserv-id a raw field value names, if any. */
  type IdReader = string -> Option<string>

  // --- lines ------------------------------------------------------------------------------------

  /** A line and what ends it: LF, CRLF, or at the end of the block nothing or a lone CR. */
  datatype Line = Line(content: string, ending: string)

  function LineFeedAt(s: string, from: nat): (i: nat)
    requires from <= |s|
    ensures from <= i <= |s| && (i < |s| ==> s[i] == '\n') && forall k :: from <= k < i ==> s[k] != '\n'
    decreases |s| - from
  {
    if from == |s| || s[from] == '\n' then from else LineFeedAt(s, from + 1)
  }

  function ContentEnd(s: string, lf: nat): (e: nat)
    requires lf <= |s|
    ensures lf - 1 <= e <= lf
  {
    if lf > 0 && s[lf - 1] == '\r' then lf - 1 else lf
  }

  function FirstLine(s: string): (l: Line)
    ensures |l.content| + |l.ending| <= |s| && s[..|l.content| + |l.ending|] == l.content + l.ending
    ensures s != "" ==> l.content + l.ending != ""
  {
    var lf := LineFeedAt(s, 0);
    var end := ContentEnd(s, lf);
    var stop := if lf < |s| then lf + 1 else lf;
    Line(s[..end], s[end..stop])
  }

  function Size(l: Line): (n: nat) { |l.content| + |l.ending| }

  function Lines(s: string): (ls: seq<Line>)
    decreases |s|
  {
    if s == "" then [] else [FirstLine(s)] + Lines(s[Size(FirstLine(s))..])
  }

  function Join(ls: seq<Line>): (s: string) {
    if ls == [] then "" else ls[0].content + ls[0].ending + Join(ls[1..])
  }

  /** A line as the split makes it; only the last may lack its LF. */
  ghost predicate LineOk(l: Line, last: bool) {
    && (forall k :: 0 <= k < |l.content| ==> l.content[k] != '\n')
    && (l.ending == "\n" || l.ending == "\r\n" || (last && (l.ending == "\r" || (l.ending == "" && l.content != ""))))
    && (l.ending == "\n" || l.ending == "" ==> l.content == "" || l.content[|l.content| - 1] != '\r')
  }

  ghost predicate LinesOk(ls: seq<Line>) {
    forall i :: 0 <= i < |ls| ==> LineOk(ls[i], i == |ls| - 1)
  }

  lemma FirstLineOk(s: string)
    requires s != ""
    ensures LineOk(FirstLine(s), Size(FirstLine(s)) == |s|)
  {
    var lf := LineFeedAt(s, 0);
    var end := ContentEnd(s, lf);
    if lf < |s| {
      assert s[end..lf + 1] == if end < lf then "\r\n" else "\n";
    } else {
      assert s[end..lf] == if end < lf then "\r" else "";
    }
  }

  lemma LinesCons(s: string)
    requires s != ""
    ensures var l, rest := FirstLine(s), s[Size(FirstLine(s))..];
            |Lines(s)| == 1 + |Lines(rest)| && Lines(s)[0] == l && Lines(s)[1..] == Lines(rest)
  {
    hide FirstLine;
  }

  lemma LinesNone()
    ensures Lines("") == []
  {
  }

  lemma {:induction false} LinesWellFormed(s: string)
    ensures LinesOk(Lines(s))
    decreases |s|
  {
    hide FirstLine, LineOk, Lines;
    LinesNone();
    if s != "" {
      var rest := s[Size(FirstLine(s))..];
      FirstLineOk(s);
      LinesWellFormed(rest);
      LinesCons(s);
      if rest != "" { LinesCons(rest); }
      var ls := Lines(s);
      forall i | 0 <= i < |ls| ensures LineOk(ls[i], i == |ls| - 1) {
        if i > 0 { assert ls[i] == ls[1..][i - 1]; }
      }
    }
  }

  lemma JoinFirst(ls: seq<Line>)
    requires ls != []
    ensures Join(ls) == ls[0].content + ls[0].ending + Join(ls[1..])
  {
  }

  lemma {:induction false} LinesJoined(s: string)
    ensures Join(Lines(s)) == s
    decreases |s|
  {
    hide FirstLine, Lines, Join;
    LinesNone();
    if s == "" {
      assert Join([]) == "" by { JoinNone(); }
    } else {
      var l := FirstLine(s);
      var rest := s[Size(l)..];
      LinesJoined(rest);
      LinesCons(s);
      JoinFirst(Lines(s));
      assert s == s[..Size(l)] + rest;
    }
  }

  lemma JoinNone()
    ensures Join([]) == ""
  {
  }

  lemma LinesSplit(s: string)
    ensures LinesOk(Lines(s)) && Join(Lines(s)) == s
  {
    LinesWellFormed(s);
    LinesJoined(s);
  }

  lemma {:induction false} LineFeedIs(s: string, from: nat, at: nat)
    requires from <= at <= |s| && (forall k :: from <= k < at ==> s[k] != '\n') && (at < |s| ==> s[at] == '\n')
    ensures LineFeedAt(s, from) == at
    decreases at - from
  {
    if from < at { LineFeedIs(s, from + 1, at); }
  }

  lemma FirstOfJoined(l: Line, rest: string)
    requires LineOk(l, rest == "")
    ensures FirstLine(l.content + l.ending + rest) == l
  {
    var s := l.content + l.ending + rest;
    var lf := if l.ending == "\n" then |l.content| else if l.ending == "\r\n" then |l.content| + 1 else |s|;
    assert forall k :: 0 <= k < |l.content| ==> s[k] == l.content[k];
    LineFeedIs(s, 0, lf);
    assert ContentEnd(s, lf) == |l.content|;
    assert s[..|l.content|] == l.content && s[|l.content|..Size(l)] == l.ending;
  }

  lemma {:induction false} SplitJoin(ls: seq<Line>)
    requires LinesOk(ls)
    ensures Lines(Join(ls)) == ls
    decreases |ls|
  {
    hide FirstLine, LineOk;
    if ls != [] {
      var l, rest := ls[0], ls[1..];
      forall i | 0 <= i < |rest| ensures LineOk(rest[i], i == |rest| - 1) { assert rest[i] == ls[i + 1]; }
      SplitJoin(rest);
      assert LineOk(ls[0], 0 == |ls| - 1);
      assert rest == [] <==> Join(rest) == "" by {
        if rest != [] {
          assert LineOk(rest[0], 0 == |rest| - 1);
          LineNotEmpty(rest[0], 0 == |rest| - 1);
        }
      }
      FirstOfJoined(l, Join(rest));
      LineNotEmpty(l, 0 == |ls| - 1);
      assert Join(ls)[Size(l)..] == Join(rest);
    }
  }

  lemma LineNotEmpty(l: Line, last: bool)
    requires LineOk(l, last)
    ensures Size(l) > 0
  {
  }

  // --- fields -----------------------------------------------------------------------------------

  predicate IsContinuation(line: string) { |line| > 0 && (line[0] == ' ' || line[0] == '\t') }

  predicate NameChar(c: char) { ' ' < c <= '~' && c != ':' }

  /** The place of the colon that ends a field name, if the line starts a field. */
  function ColonFrom(line: string, i: nat): (r: Option<nat>)
    requires i <= |line|
    ensures r.Some? ==> i <= r.value < |line| && 0 < r.value && line[r.value] == ':' && forall k :: i <= k < r.value ==>
            NameChar(line[k])
    decreases |line| - i
  {
    if i == |line| then None
    else if line[i] == ':' then (if i == 0 then None else Some(i))
    else if !NameChar(line[i]) then None
    else ColonFrom(line, i + 1)
  }

  function ColonOf(line: string): (r: Option<nat>)
    ensures r.Some? ==> 0 < r.value < |line| && line[r.value] == ':' && forall k :: 0 <= k < r.value ==>
            NameChar(line[k])
  {
    ColonFrom(line, 0)
  }

  /** The continuation lines that come first, one after the other. */
  function Continued(ls: seq<Line>): (v: string) {
    if ls != [] && IsContinuation(ls[0].content) then ls[0].content + Continued(ls[1..]) else ""
  }

  predicate IsOurs(name: string, value: string, idOf: IdReader, ours: string) {
    Flags.Lower(name) == OUR_FIELD_KEY && idOf(value) == Some(ours)
  }

  /** The first of these lines, renamed if it starts a field that claims to be ours. */
  function NewFirst(ls: seq<Line>, idOf: IdReader, ours: string): (l: Line)
    requires ls != []
  {
    var line := ls[0].content;
    match ColonOf(line)
    case None => ls[0]
    case Some(c) =>
      if IsOurs(line[..c], line[c + 1..] + Continued(ls[1..]), idOf, ours) then
        ls[0].(content := RENAMED_FIELD_NAME + line[c..])
      else ls[0]
  }

  function RenameLines(ls: seq<Line>, idOf: IdReader, ours: string): (r: seq<Line>)
    ensures |r| == |ls|
  {
    if ls == [] then [] else [NewFirst(ls, idOf, ours)] + RenameLines(ls[1..], idOf, ours)
  }

  /** The block with every field that claims to be ours renamed, line by line. */
  function Rewritten(block: string, idOf: IdReader, ours: string): (r: string) {
    Join(RenameLines(Lines(block), idOf, ours))
  }

  /** A field as a reader sees it: its name, and its value with the folds taken out. */
  datatype NameValue = NameValue(name: string, value: string)

  function FieldsOf(ls: seq<Line>): (fs: seq<NameValue>) {
    if ls == [] then []
    else
      var line := ls[0].content;
      match ColonOf(line)
      case None => FieldsOf(ls[1..])
      case Some(c) => [NameValue(line[..c], line[c + 1..] + Continued(ls[1..]))] + FieldsOf(ls[1..])
  }

  function RenameOurs(fs: seq<NameValue>, idOf: IdReader, ours: string): (r: seq<NameValue>)
    ensures |r| == |fs|
  {
    seq(|fs|, i requires 0 <= i < |fs| =>
      if IsOurs(fs[i].name, fs[i].value, idOf, ours) then fs[i].(name := RENAMED_FIELD_NAME) else fs[i])
  }

  // --- what the rewrite does to lines -----------------------------------------------------------

  lemma {:induction false} ColonAfter(name: string, rest: string, i: nat)
    requires i <= |name| && |name| > 0 && |rest| > 0 && rest[0] == ':' && forall k :: 0 <= k < |name| ==>
             NameChar(name[k])
    ensures ColonFrom(name + rest, i) == Some(|name|)
    decreases |name| - i
  {
    if i < |name| { ColonAfter(name, rest, i + 1); }
  }

  lemma RenamedIsName()
    ensures forall k :: 0 <= k < |RENAMED_FIELD_NAME| ==> NameChar(RENAMED_FIELD_NAME[k])
    ensures |RENAMED_FIELD_NAME| == 33 && Flags.Lower(RENAMED_FIELD_NAME) != OUR_FIELD_KEY
  {
    assert |Flags.Lower(RENAMED_FIELD_NAME)| == 33;
    assert |OUR_FIELD_KEY| == 22;
  }

  /** A renamed line still starts a field, with the same value and the same ending. */
  lemma NewFirstShape(ls: seq<Line>, idOf: IdReader, ours: string)
    requires ls != []
    ensures var l, r := ls[0], NewFirst(ls, idOf, ours);
            && r.ending == l.ending
            && IsContinuation(r.content) == IsContinuation(l.content)
            && (IsContinuation(l.content) ==> r == l)
            && (ColonOf(l.content).None? ==> r == l)
            && (ColonOf(l.content).Some? ==> ColonOf(r.content).Some?)
            && (ColonOf(l.content).Some? ==>
                  r.content[ColonOf(r.content).value..]
                  == l.content[ColonOf(l.content).value..])
  {
    var line := ls[0].content;
    var r := NewFirst(ls, idOf, ours);
    if r != ls[0] {
      var c := ColonOf(line).value;
      RenamedIsName();
      ColonAfter(RENAMED_FIELD_NAME, line[c..], 0);
      assert r.content[33..] == line[c..];
      assert r.content[0] == 'X' && NameChar(line[0]);
    } else {
      assert IsContinuation(line) ==> ColonOf(line).None?;
    }
  }

  lemma {:induction false} ContinuedSame(ls: seq<Line>, idOf: IdReader, ours: string)
    ensures Continued(RenameLines(ls, idOf, ours)) == Continued(ls)
  {
    hide NewFirst, ColonOf;
    if ls != [] {
      NewFirstShape(ls, idOf, ours);
      ContinuedSame(ls[1..], idOf, ours);
      assert RenameLines(ls, idOf, ours)[1..] == RenameLines(ls[1..], idOf, ours);
    }
  }

  lemma NewFirstOk(ls: seq<Line>, last: bool, idOf: IdReader, ours: string)
    requires ls != [] && LineOk(ls[0], last)
    ensures LineOk(NewFirst(ls, idOf, ours), last)
  {
    var r := NewFirst(ls, idOf, ours);
    if r != ls[0] {
      var line := ls[0].content;
      var c := ColonOf(line).value;
      RenamedIsName();
      forall k | 0 <= k < |r.content| ensures r.content[k] != '\n' {
        if k < 33 { assert NameChar(RENAMED_FIELD_NAME[k]); } else { assert r.content[k] == line[c + (k - 33)]; }
      }
      assert r.content[|r.content| - 1] == line[|line| - 1];
    }
  }

  lemma {:induction false} RenameLinesOk(ls: seq<Line>, idOf: IdReader, ours: string)
    requires LinesOk(ls)
    ensures LinesOk(RenameLines(ls, idOf, ours))
  {
    hide NewFirst, LineOk;
    if ls != [] {
      var rest, r := ls[1..], RenameLines(ls, idOf, ours);
      forall i | 0 <= i < |rest| ensures LineOk(rest[i], i == |rest| - 1) { assert rest[i] == ls[i + 1]; }
      RenameLinesOk(rest, idOf, ours);
      assert LineOk(ls[0], 0 == |ls| - 1);
      NewFirstOk(ls, 0 == |ls| - 1, idOf, ours);
      forall i | 0 <= i < |r| ensures LineOk(r[i], i == |r| - 1) {
        if i > 0 { assert r[i] == RenameLines(rest, idOf, ours)[i - 1]; }
      }
    }
  }

  /** The lines of the result are the lines of the block, renamed. */
  lemma RewrittenLines(block: string, idOf: IdReader, ours: string)
    ensures Lines(Rewritten(block, idOf, ours)) == RenameLines(Lines(block), idOf, ours)
  {
    LinesSplit(block);
    RenameLinesOk(Lines(block), idOf, ours);
    SplitJoin(RenameLines(Lines(block), idOf, ours));
  }

  /** One line, before and after: its ending and everything from the colon on are as they were. */
  ghost predicate OnlyNameChanged(l: Line, r: Line) {
    l == r || (
      && ColonOf(l.content).Some?
      && Flags.Lower(l.content[..ColonOf(l.content).value]) == OUR_FIELD_KEY
      && r == Line(RENAMED_FIELD_NAME + l.content[ColonOf(l.content).value..], l.ending))
  }

  lemma {:induction false} RenameLinesChange(ls: seq<Line>, idOf: IdReader, ours: string)
    ensures forall i :: 0 <= i < |ls| ==> OnlyNameChanged(ls[i], RenameLines(ls, idOf, ours)[i])
  {
    if ls != [] {
      RenameLinesChange(ls[1..], idOf, ours);
      var r := RenameLines(ls, idOf, ours);
      forall i | 0 <= i < |ls| ensures OnlyNameChanged(ls[i], r[i]) {
        if i > 0 { assert ls[i] == ls[1..][i - 1] && r[i] == RenameLines(ls[1..], idOf, ours)[i - 1]; }
      }
    }
  }

  /** Line by line, the rewrite changes nothing but the name of an Authentication-Results field. */
  lemma OnlyNamesChange(block: string, idOf: IdReader, ours: string)
    ensures var before, after := Lines(block), Lines(Rewritten(block, idOf, ours));
            |after| == |before| && forall i :: 0 <= i < |before| ==> OnlyNameChanged(before[i], after[i])
  {
    RewrittenLines(block, idOf, ours);
    RenameLinesChange(Lines(block), idOf, ours);
  }

  lemma RenameFirst(f: NameValue, fs: seq<NameValue>, idOf: IdReader, ours: string)
    ensures RenameOurs([f] + fs, idOf, ours) == RenameOurs([f], idOf, ours) + RenameOurs(fs, idOf, ours)
  {
    hide IsOurs;
  }

  lemma {:induction false} FieldsRenamed(ls: seq<Line>, idOf: IdReader, ours: string)
    ensures FieldsOf(RenameLines(ls, idOf, ours)) == RenameOurs(FieldsOf(ls), idOf, ours)
  {
    hide IsOurs, NewFirst, ColonOf, Continued, RenameOurs;
    if ls == [] {
      assert RenameOurs([], idOf, ours) == [];
    } else {
      var rest, r := ls[1..], RenameLines(ls, idOf, ours);
      FieldsRenamed(rest, idOf, ours);
      ContinuedSame(rest, idOf, ours);
      assert r[1..] == RenameLines(rest, idOf, ours);
      FirstFieldRenamed(ls, idOf, ours);
      var line := ls[0].content;
      if ColonOf(line).Some? {
        var c := ColonOf(line).value;
        RenameFirst(NameValue(line[..c], line[c + 1..] + Continued(rest)), FieldsOf(rest), idOf, ours);
      }
    }
  }

  lemma FirstFieldRenamed(ls: seq<Line>, idOf: IdReader, ours: string)
    requires ls != []
    ensures var line, made := ls[0].content, NewFirst(ls, idOf, ours).content;
            && (ColonOf(line).None? ==> ColonOf(made).None?)
            && (ColonOf(line).Some? ==>
                  var c := ColonOf(line).value;
                  var f := NameValue(line[..c], line[c + 1..] + Continued(ls[1..]));
                  ColonOf(made).Some? && [NameValue(made[..ColonOf(made).value],
                    made[ColonOf(made).value + 1..] + Continued(ls[1..]))] == RenameOurs([f], idOf, ours))
  {
    var line, made := ls[0].content, NewFirst(ls, idOf, ours).content;
    if ColonOf(line).Some? && made != line {
      var c := ColonOf(line).value;
      RenamedIsName();
      ColonAfter(RENAMED_FIELD_NAME, line[c..], 0);
      assert made[..33] == RENAMED_FIELD_NAME && made[34..] == line[c + 1..];
    }
  }

  /** The fields a reader sees after the rewrite are the fields before it, ours renamed and every value kept. */
  lemma FieldsKept(block: string, idOf: IdReader, ours: string)
    ensures FieldsOf(Lines(Rewritten(block, idOf, ours))) == RenameOurs(FieldsOf(Lines(block)), idOf, ours)
  {
    RewrittenLines(block, idOf, ours);
    FieldsRenamed(Lines(block), idOf, ours);
  }

  /** No field that claims to be ours is left. */
  lemma NoneLeft(block: string, idOf: IdReader, ours: string)
    ensures forall f :: f in FieldsOf(Lines(Rewritten(block, idOf, ours))) ==> !IsOurs(f.name, f.value, idOf, ours)
  {
    hide FieldsOf, Rewritten, Lines;
    FieldsKept(block, idOf, ours);
    RenamedIsName();
    forall f | f in FieldsOf(Lines(Rewritten(block, idOf, ours))) ensures !IsOurs(f.name, f.value, idOf, ours) {
      var before := FieldsOf(Lines(block));
      var i :| 0 <= i < |before| && RenameOurs(before, idOf, ours)[i] == f;
    }
  }

  lemma {:induction false} NoneOursNoChange(ls: seq<Line>, idOf: IdReader, ours: string)
    requires forall f :: f in FieldsOf(ls) ==> !IsOurs(f.name, f.value, idOf, ours)
    ensures RenameLines(ls, idOf, ours) == ls
  {
    hide IsOurs;
    if ls != [] {
      var line, rest := ls[0].content, FieldsOf(ls[1..]);
      forall f | f in rest ensures !IsOurs(f.name, f.value, idOf, ours) { assert f in FieldsOf(ls); }
      NoneOursNoChange(ls[1..], idOf, ours);
      if ColonOf(line).Some? {
        var c := ColonOf(line).value;
        var f := NameValue(line[..c], line[c + 1..] + Continued(ls[1..]));
        assert FieldsOf(ls)[0] == f && f in FieldsOf(ls);
      }
    }
  }

  /** Rewriting again changes nothing. */
  lemma RewriteIdempotent(block: string, idOf: IdReader, ours: string)
    ensures var once := Rewritten(block, idOf, ours);
            Rewritten(once, idOf, ours) == once
  {
    var once := Rewritten(block, idOf, ours);
    NoneLeft(block, idOf, ours);
    NoneOursNoChange(Lines(once), idOf, ours);
    LinesSplit(once);
  }

  // --- a reader that takes white space before the colon -----------------------------------------

  predicate IsBlank(c: char) { c == ' ' || c == '\t' }

  /** A field name from its start, the blanks after it, and the colon: where the name ends and where the colon is. */
  datatype NameEnd = NameEnd(end: nat, colon: nat)

  function BlanksFrom(line: string, end: nat, i: nat): (r: Option<NameEnd>)
    requires end <= i <= |line|
    ensures r.Some? ==> r.value.end == end && i <= r.value.colon < |line| && line[r.value.colon] == ':'
    decreases |line| - i
  {
    if i == |line| then None
    else if line[i] == ':' then Some(NameEnd(end, i))
    else if IsBlank(line[i]) then BlanksFrom(line, end, i + 1)
    else None
  }

  function LooseFrom(line: string, i: nat): (r: Option<NameEnd>)
    requires i <= |line|
    ensures r.Some? ==> i <= r.value.end <= r.value.colon < |line| && line[r.value.colon] == ':'
    decreases |line| - i
  {
    if i == |line| then None
    else if NameChar(line[i]) then LooseFrom(line, i + 1)
    else if i == 0 then None
    else BlanksFrom(line, i, i)
  }

  /** The obsolete form of a field line, which other readers accept (section 4.5 of RFC 5322). */
  function LooseColon(line: string): (r: Option<NameEnd>)
    ensures r.Some? ==> r.value.end <= r.value.colon < |line| && line[r.value.colon] == ':'
  {
    LooseFrom(line, 0)
  }

  function FirstLoose(ls: seq<Line>): (f: NameValue)
    requires ls != [] && LooseColon(ls[0].content).Some?
  {
    var line, at := ls[0].content, LooseColon(ls[0].content).value;
    NameValue(line[..at.end], line[at.colon + 1..] + Continued(ls[1..]))
  }

  /** The fields such a reader sees. */
  function LooseFieldsOf(ls: seq<Line>): (fs: seq<NameValue>) {
    if ls == [] then []
    else (if LooseColon(ls[0].content).Some? then [FirstLoose(ls)] else []) + LooseFieldsOf(ls[1..])
  }

  /** The first of these lines starts a field that claims to be ours, with blanks before its colon. */
  predicate BlankClaim(ls: seq<Line>, idOf: IdReader, ours: string) {
    ls != [] &&
    var at := LooseColon(ls[0].content);
    at.Some? && at.value.end < at.value.colon && IsOurs(FirstLoose(ls).name, FirstLoose(ls).value, idOf, ours)
  }

  lemma {:induction false} StrictIsLoose(line: string, i: nat)
    requires i <= |line| && ColonFrom(line, i).Some?
    ensures LooseFrom(line, i) == Some(NameEnd(ColonFrom(line, i).value, ColonFrom(line, i).value))
    decreases |line| - i
  {
    if line[i] != ':' { StrictIsLoose(line, i + 1); }
  }

  lemma {:induction false} LooseIsStrict(line: string, i: nat)
    requires i <= |line| && LooseFrom(line, i).Some?
    ensures ColonFrom(line, i).Some? <==> LooseFrom(line, i).value.end == LooseFrom(line, i).value.colon
    decreases |line| - i
  {
    if NameChar(line[i]) {
      LooseIsStrict(line, i + 1);
    } else if IsBlank(line[i]) {
      BlanksPass(line, i, i);
    }
  }

  lemma {:induction false} BlanksPass(line: string, end: nat, i: nat)
    requires end <= i < |line| && IsBlank(line[i]) && BlanksFrom(line, end, i).Some?
    ensures BlanksFrom(line, end, i).value.colon > end
  {
  }

  /** The first line after the rewrite, to the loose reader: ours exactly when it was a blank claim. */
  lemma FirstLooseAfter(ls: seq<Line>, idOf: IdReader, ours: string)
    requires ls != []
    ensures var r := RenameLines(ls, idOf, ours);
            LooseColon(r[0].content).Some? && IsOurs(FirstLoose(r).name, FirstLoose(r).value, idOf, ours) <==>
              BlankClaim(ls, idOf, ours)
  {
    var r, line := RenameLines(ls, idOf, ours), ls[0].content;
    assert r[1..] == RenameLines(ls[1..], idOf, ours) && r[0] == NewFirst(ls, idOf, ours);
    ContinuedSame(ls[1..], idOf, ours);
    if ColonOf(line).Some? {
      hide IsOurs, Continued, RenameLines;
      StrictIsLoose(line, 0);
      FirstFieldRenamed(ls, idOf, ours);
      var made := r[0].content;
      StrictIsLoose(made, 0);
      RenamedNotOurs(NameValue(line[..ColonOf(line).value], line[ColonOf(line).value + 1..] + Continued(ls[1..])), idOf,
        ours);
    } else {
      assert r[0] == ls[0];
      if LooseColon(line).Some? { LooseIsStrict(line, 0); }
    }
  }

  lemma RenamedNotOurs(f: NameValue, idOf: IdReader, ours: string)
    ensures !IsOurs(RenameOurs([f], idOf, ours)[0].name, RenameOurs([f], idOf, ours)[0].value, idOf, ours)
  {
    RenamedIsName();
  }

  lemma {:induction false} LooseLeft(ls: seq<Line>, idOf: IdReader, ours: string)
    ensures (exists f :: f in LooseFieldsOf(RenameLines(ls, idOf, ours)) && IsOurs(f.name, f.value, idOf, ours))
       <==> (exists i :: 0 <= i < |ls| && BlankClaim(ls[i..], idOf, ours))
  {
    hide IsOurs, BlankClaim, NewFirst, LooseColon, Continued;
    if ls != [] {
      var r := RenameLines(ls, idOf, ours);
      assert r[1..] == RenameLines(ls[1..], idOf, ours);
      FirstLooseAfter(ls, idOf, ours);
      LooseLeft(ls[1..], idOf, ours);
      assert ls[0..] == ls;
      forall i | 0 < i < |ls| ensures ls[i..] == ls[1..][i - 1..] {}
      if i :| 0 <= i < |ls| && BlankClaim(ls[i..], idOf, ours) {
        assert i > 0 ==> BlankClaim(ls[1..][i - 1..], idOf, ours);
      }
      if i :| 0 <= i < |ls[1..]| && BlankClaim(ls[1..][i..], idOf, ours) {
        assert ls[1..][i..] == ls[i + 1..];
      }
    }
  }

  /**
   To a reader that takes blanks before the colon, a field that claims to be ours is left if and only if
   some line of the block starts one with blanks before its colon.
  */
  lemma LooselyLeftExactly(block: string, idOf: IdReader, ours: string)
    ensures (exists f :: f in LooseFieldsOf(Lines(Rewritten(block, idOf, ours))) && IsOurs(f.name, f.value, idOf, ours))
       <==> (exists i :: 0 <= i < |Lines(block)| && BlankClaim(Lines(block)[i..], idOf, ours))
  {
    RewrittenLines(block, idOf, ours);
    LooseLeft(Lines(block), idOf, ours);
  }

  const FORGED_NAME: string := "Authentication-Results"

  lemma {:induction false} LooseName(name: string, rest: string, i: nat)
    requires i <= |name| && |name| > 0 && (forall k :: 0 <= k < |name| ==> NameChar(name[k]))
    requires |rest| >= 2 && rest[0] == ' ' && rest[1] == ':'
    ensures LooseFrom(name + rest, i) == Some(NameEnd(|name|, |name| + 1))
    decreases |name| - i
  {
    if i < |name| {
      LooseName(name, rest, i + 1);
    } else {
      var line := name + rest;
      assert line[i] == ' ' && line[i + 1] == ':';
      assert BlanksFrom(line, i, i + 1) == Some(NameEnd(i, i + 1));
    }
  }

  lemma ForgedIsName()
    ensures (forall k :: 0 <= k < |FORGED_NAME| ==> NameChar(FORGED_NAME[k])) && |FORGED_NAME| == 22
    ensures Flags.Lower(FORGED_NAME) == OUR_FIELD_KEY
  {
  }

  /** Whatever its value, a field of ours with a space before its colon passes the rewrite unchanged. */
  lemma BlankBeforeColonIsKept(value: string, idOf: IdReader, ours: string)
    requires (forall k :: 0 <= k < |value| ==> value[k] != '\n') && idOf(value) == Some(ours)
    ensures var block := FORGED_NAME + " :" + value + "\r\n";
            && Rewritten(block, idOf, ours) == block
            && NameValue(FORGED_NAME, value) in LooseFieldsOf(Lines(block))
            && IsOurs(FORGED_NAME, value, idOf, ours)
  {
    var content := FORGED_NAME + " :" + value;
    var ls := [Line(content, "\r\n")];
    ForgedIsName();
    hide RenameLines, Lines, LooseFieldsOf, NewFirst;
    assert content == FORGED_NAME + (" :" + value);
    LooseName(FORGED_NAME, " :" + value, 0);
    LooseIsStrict(content, 0);
    assert LineOk(ls[0], true);
    assert Join(ls) == content + "\r\n" by { assert ls[1..] == []; assert content + "\r\n" + "" == content + "\r\n"; }
    SplitJoin(ls);
    OneLineKept(ls, idOf, ours);
    assert content[24..] == value && content[..22] == FORGED_NAME;
    assert value + "" == value;
    OneLoose(ls);
  }

  lemma OneLineKept(ls: seq<Line>, idOf: IdReader, ours: string)
    requires |ls| == 1 && ColonOf(ls[0].content).None?
    ensures RenameLines(ls, idOf, ours) == ls
  {
    assert ls[1..] == [];
  }

  lemma {:induction false} OneLoose(ls: seq<Line>)
    requires |ls| == 1 && LooseColon(ls[0].content).Some?
    ensures LooseFieldsOf(ls) == [FirstLoose(ls)]
    ensures Continued(ls[1..]) == ""
  {
    assert LooseFieldsOf(ls[1..]) == [];
  }

  // --- the rewrite as it is done: fields by offset, then the renames spliced in -----------------

  datatype Field = Field(nameStart: nat, colon: nat, rawValue: string)

  function FirstField(ls: seq<Line>, pos: nat): (f: Field)
    requires ls != [] && ColonOf(ls[0].content).Some?
  {
    var line := ls[0].content;
    var c := ColonOf(line).value;
    Field(pos, pos + c, line[c + 1..] + Continued(ls[1..]))
  }

  function FieldsAt(ls: seq<Line>, pos: nat): (fs: seq<Field>) {
    if ls == [] then []
    else (if ColonOf(ls[0].content).Some? then [FirstField(ls, pos)] else []) + FieldsAt(ls[1..], pos + Size(ls[0]))
  }

  /** The field being read, completed by the lines still to come, and the fields after it. */
  function Pending(current: Option<Field>, ls: seq<Line>, pos: nat): (fs: seq<Field>) {
    (if current.Some? then [current.value.(rawValue := current.value.rawValue + Continued(ls))] else [])
      + FieldsAt(ls, pos)
  }

  method FieldColonIndex(line: string) returns (r: Option<nat>)
    ensures r == ColonOf(line)
  {
    var i := 0;
    while i < |line|
      invariant i <= |line| && ColonFrom(line, i) == ColonOf(line)
    {
      if line[i] == ':' { break; }
      if !NameChar(line[i]) { return None; }
      i := i + 1;
    }
    if i == 0 || i >= |line| { return None; }
    return Some(i);
  }

  lemma ContinuationStarts(line: string)
    requires IsContinuation(line)
    ensures ColonOf(line).None?
  {
  }

  /** One line on: the field being read grows, or ends here and the line may start another. */
  lemma PendingStep(current: Option<Field>, ls: seq<Line>, pos: nat)
    requires ls != []
    ensures var line, rest, next := ls[0].content, ls[1..], pos + Size(ls[0]);
            if IsContinuation(line) && current.Some? then
              Pending(current, ls, pos) == Pending(Some(current.value.(rawValue := current.value.rawValue + line)),
                rest, next)
            else
              Pending(current, ls, pos) == (if current.Some? then [current.value] else [])
                + Pending(if ColonOf(line).Some?
                  then Some(Field(pos, pos + ColonOf(line).value, line[ColonOf(line).value + 1..]))
                  else None, rest, next)
  {
    hide ColonOf;
    var line := ls[0].content;
    if IsContinuation(line) && current.Some? {
      ContinuationStarts(line);
      var raw := current.value.rawValue;
      assert raw + (line + Continued(ls[1..])) == (raw + line) + Continued(ls[1..]);
    } else if current.Some? {
      assert current.value.rawValue + "" == current.value.rawValue;
    }
  }

  method SplitFields(block: string) returns (fields: seq<Field>)
    ensures fields == FieldsAt(Lines(block), 0)
  {
    hide Pending, Continued, FieldsAt, Lines, ColonOf;
    fields := [];
    var pos := 0;
    var current: Option<Field> := None;
    assert block[0..] == block;
    NonePending(Lines(block));
    while pos < |block|
      invariant pos <= |block|
      invariant fields + Pending(current, Lines(block[pos..]), pos) == FieldsAt(Lines(block), 0)
    {
      ghost var ls := Lines(block[pos..]);
      var lf := LineFeedAt(block, pos);
      var lineEnd := if lf > pos && block[lf - 1] == '\r' then lf - 1 else lf;
      var line := block[pos..lineEnd];
      var next := if lf < |block| then lf + 1 else lf;
      assert lineEnd == LineEnd(block, pos) && next == NextLine(block, pos);
      LineAt(block, pos);
      PendingStep(current, ls, pos);
      if IsContinuation(line) && current.Some? {
        current := Some(current.value.(rawValue := current.value.rawValue + line));
      } else {
        if current.Some? { fields := fields + [current.value]; }
        var colon := FieldColonIndex(line);
        current := if colon.Some? then Some(Field(pos, pos + colon.value, block[pos + colon.value + 1..lineEnd]))
          else None;
        assert colon.Some? ==> block[pos + colon.value + 1..lineEnd] == line[colon.value + 1..];
      }
      pos := next;
    }
    assert block[|block|..] == "";
    LastPending(current, pos);
    if current.Some? { fields := fields + [current.value]; }
  }

  lemma NonePending(ls: seq<Line>)
    ensures [] + Pending(None, ls, 0) == FieldsAt(ls, 0)
  {
  }

  lemma LastPending(current: Option<Field>, pos: nat)
    ensures Pending(current, Lines(""), pos) == if current.Some? then [current.value] else []
  {
    if current.Some? { assert current.value.rawValue + "" == current.value.rawValue; }
  }

  function LineEnd(block: string, pos: nat): (e: nat)
    requires pos <= |block|
    ensures pos <= e <= LineFeedAt(block, pos)
  {
    var lf := LineFeedAt(block, pos);
    if lf > pos && block[lf - 1] == '\r' then lf - 1 else lf
  }

  function NextLine(block: string, pos: nat): (next: nat)
    requires pos <= |block|
    ensures LineFeedAt(block, pos) <= next <= |block|
  {
    var lf := LineFeedAt(block, pos);
    if lf < |block| then lf + 1 else lf
  }

  lemma FirstLineAt(block: string, pos: nat)
    requires pos < |block|
    ensures FirstLine(block[pos..]) == Line(block[pos..LineEnd(block, pos)],
            block[LineEnd(block, pos)..NextLine(block, pos)])
  {
    var s, lf := block[pos..], LineFeedAt(block, pos);
    LineFeedIs(s, 0, lf - pos);
    var end, next := LineEnd(block, pos), NextLine(block, pos);
    assert ContentEnd(s, lf - pos) == end - pos;
    assert s[..end - pos] == block[pos..end] && s[end - pos..next - pos] == block[end..next];
  }

  /** The line found in the block by offset is the first line of what remains. */
  lemma LineAt(block: string, pos: nat)
    requires pos < |block|
    ensures var s := block[pos..];
            && Lines(s) != [] && Lines(s)[0].content == block[pos..LineEnd(block, pos)]
            && Size(Lines(s)[0]) == NextLine(block, pos) - pos
            && Lines(s)[1..] == Lines(block[NextLine(block, pos)..])
  {
    hide Lines, FirstLine, LineEnd, NextLine;
    FirstLineAt(block, pos);
    var s, next := block[pos..], NextLine(block, pos);
    LinesCons(s);
    assert s[next - pos..] == block[next..];
  }

  ghost predicate Fit(block: string, fs: seq<Field>) {
    fs == [] || (fs[0].nameStart <= fs[0].colon <= |block| && Fit(block, fs[1..]))
  }

  function Chosen(block: string, fields: seq<Field>, idOf: IdReader, ours: string): (r: seq<Field>)
    requires Fit(block, fields)
  {
    if fields == [] then []
    else
      var f := fields[0];
      (if IsOurs(block[f.nameStart..f.colon], f.rawValue, idOf, ours) then [f] else [])
        + Chosen(block, fields[1..], idOf, ours)
  }

  /** The names of these fields, from the cursor on, replaced by the new one. */
  function Spliced(block: string, renames: seq<Field>, cursor: nat): (r: string)
    requires cursor <= |block| && InOrder(block, renames, cursor)
  {
    if renames == [] then block[cursor..]
    else block[cursor..renames[0].nameStart] + RENAMED_FIELD_NAME + Spliced(block, renames[1..], renames[0].colon)
  }

  ghost predicate InOrder(block: string, fs: seq<Field>, cursor: nat) {
    fs == [] || (cursor <= fs[0].nameStart <= fs[0].colon <= |block| && InOrder(block, fs[1..], fs[0].colon))
  }

  /** The offsets of the fields of these lines, which stand in the block at pos. */
  lemma {:induction false} FieldsFit(block: string, ls: seq<Line>, pos: nat)
    requires pos <= |block| && Join(ls) == block[pos..]
    ensures Fit(block, FieldsAt(ls, pos))
    decreases |ls|
  {
    hide ColonOf, Join, Continued;
    if ls != [] {
      JoinCons(block, ls, pos);
      var rest := FieldsAt(ls[1..], pos + Size(ls[0]));
      FieldsFit(block, ls[1..], pos + Size(ls[0]));
      if ColonOf(ls[0].content).Some? {
        var f := FirstField(ls, pos);
        assert ([f] + rest)[1..] == rest;
      } else {
        assert [] + rest == rest;
      }
    }
  }

  lemma JoinCons(block: string, ls: seq<Line>, pos: nat)
    requires pos <= |block| && Join(ls) == block[pos..] && ls != []
    ensures var next := pos + Size(ls[0]);
            && Size(ls[0]) == |ls[0].content| + |ls[0].ending|
            && next <= |block| && Join(ls[1..]) == block[next..]
            && block[pos..next] == ls[0].content + ls[0].ending
            && block[pos..pos + |ls[0].content|] == ls[0].content
  {
    var next := pos + Size(ls[0]);
    var text := ls[0].content + ls[0].ending;
    assert |Join(ls)| == |text| + |Join(ls[1..])|;
    assert block[pos..][..|text|] == text && block[pos..][|text|..] == Join(ls[1..]);
    assert block[pos..][..|text|] == block[pos..next];
    assert block[pos..pos + |ls[0].content|] == text[..|ls[0].content|];
  }

  lemma SplicedCons(block: string, f: Field, renames: seq<Field>, cursor: nat)
    requires cursor <= f.nameStart <= f.colon <= |block| && InOrder(block, renames, f.colon)
    ensures InOrder(block, [f] + renames, cursor)
    ensures Spliced(block, [f] + renames, cursor) == block[cursor..f.nameStart] + RENAMED_FIELD_NAME
            + Spliced(block, renames, f.colon)
  {
    assert ([f] + renames)[1..] == renames;
  }

  lemma ChosenCons(block: string, f: Field, fs: seq<Field>, idOf: IdReader, ours: string)
    requires f.nameStart <= f.colon <= |block| && Fit(block, fs)
    ensures Fit(block, [f] + fs)
    ensures Chosen(block, [f] + fs, idOf, ours)
         == (if IsOurs(block[f.nameStart..f.colon], f.rawValue, idOf, ours) then [f] else [])
           + Chosen(block, fs, idOf, ours)
  {
    hide IsOurs;
    assert ([f] + fs)[1..] == fs;
  }

  lemma JoinRenamed(ls: seq<Line>, idOf: IdReader, ours: string)
    requires ls != []
    ensures var made := NewFirst(ls, idOf, ours);
            Join(RenameLines(ls, idOf, ours)) == made.content + made.ending + Join(RenameLines(ls[1..], idOf, ours))
  {
    hide NewFirst;
    assert RenameLines(ls, idOf, ours)[1..] == RenameLines(ls[1..], idOf, ours);
  }

  predicate Renames(ls: seq<Line>, idOf: IdReader, ours: string)
    requires ls != []
  {
    var line := ls[0].content;
    ColonOf(line).Some? && IsOurs(line[..ColonOf(line).value], line[ColonOf(line).value + 1..] + Continued(ls[1..]),
      idOf, ours)
  }

  lemma NewFirstIs(ls: seq<Line>, idOf: IdReader, ours: string)
    requires ls != []
    ensures var l := ls[0];
            NewFirst(ls, idOf, ours) == if Renames(ls, idOf, ours)
              then l.(content := RENAMED_FIELD_NAME + l.content[ColonOf(l.content).value..]) else l
  {
    hide IsOurs, Continued, ColonOf;
  }

  lemma NameAt(block: string, l: Line, pos: nat, c: nat)
    requires pos + Size(l) <= |block| && block[pos..pos + |l.content|] == l.content && c <= |l.content|
    ensures block[pos..pos + c] == l.content[..c]
  {
    assert block[pos..pos + |l.content|][..c] == block[pos..pos + c];
  }

  /** The fields chosen among these lines: the first of them, if it starts a field to rename, and the others. */
  lemma ChosenFirst(block: string, ls: seq<Line>, pos: nat, idOf: IdReader, ours: string)
    requires pos <= |block| && Join(ls) == block[pos..] && ls != []
    ensures var next := pos + Size(ls[0]);
            && next <= |block| && Fit(block, FieldsAt(ls, pos)) && Fit(block, FieldsAt(ls[1..], next))
            && Chosen(block, FieldsAt(ls, pos), idOf, ours)
            == (if Renames(ls, idOf, ours) then [FirstField(ls, pos)] else [])
              + Chosen(block, FieldsAt(ls[1..], next), idOf, ours)
  {
    hide ColonOf, IsOurs, Continued, Join, Chosen, Fit;
    var l, next := ls[0], pos + Size(ls[0]);
    JoinCons(block, ls, pos);
    FieldsFit(block, ls, pos);
    FieldsFit(block, ls[1..], next);
    if ColonOf(l.content).Some? {
      NameAt(block, l, pos, ColonOf(l.content).value);
      ChosenCons(block, FirstField(ls, pos), FieldsAt(ls[1..], next), idOf, ours);
    } else {
      assert [] + FieldsAt(ls[1..], next) == FieldsAt(ls[1..], next);
    }
  }

  /** Splicing the new name in at the chosen offsets is renaming line by line. */
  lemma {:induction false} SpliceIsRename(block: string, ls: seq<Line>, pos: nat, cursor: nat, idOf: IdReader,
          ours: string)
    requires cursor <= pos <= |block| && Join(ls) == block[pos..]
    ensures Fit(block, FieldsAt(ls, pos))
    ensures var renames := Chosen(block, FieldsAt(ls, pos), idOf, ours);
            && InOrder(block, renames, cursor)
            && Spliced(block, renames, cursor) == block[cursor..pos] + Join(RenameLines(ls, idOf, ours))
    decreases |ls|
  {
    hide *;
    if ls == [] {
      SpliceNothing(block, pos, cursor, idOf, ours);
    } else {
      var l, rest, next := ls[0], ls[1..], pos + Size(ls[0]);
      JoinCons(block, ls, pos);
      JoinRenamed(ls, idOf, ours);
      NewFirstIs(ls, idOf, ours);
      ChosenFirst(block, ls, pos, idOf, ours);
      var tail, chosen := Join(RenameLines(rest, idOf, ours)), Chosen(block, FieldsAt(rest, next), idOf, ours);
      if !Renames(ls, idOf, ours) {
        SpliceIsRename(block, rest, next, cursor, idOf, ours);
        PlainPiece(block, l, pos, cursor, tail);
        assert [] + chosen == chosen;
      } else {
        RenamesStart(ls, pos, idOf, ours);
        var c := ColonOf(l.content).value;
        SpliceIsRename(block, rest, next, pos + c, idOf, ours);
        SplicedCons(block, FirstField(ls, pos), chosen, cursor);
        RenamedPiece(block, l, pos, c, cursor, tail);
      }
    }
  }

  lemma SpliceNothing(block: string, pos: nat, cursor: nat, idOf: IdReader, ours: string)
    requires cursor <= pos <= |block| && Join([]) == block[pos..]
    ensures Fit(block, FieldsAt([], pos))
    ensures var renames := Chosen(block, FieldsAt([], pos), idOf, ours);
            && InOrder(block, renames, cursor)
            && Spliced(block, renames, cursor) == block[cursor..pos] + Join(RenameLines([], idOf, ours))
  {
    assert block[cursor..] == block[cursor..pos] + "";
  }

  lemma RenamesStart(ls: seq<Line>, pos: nat, idOf: IdReader, ours: string)
    requires ls != [] && Renames(ls, idOf, ours)
    ensures ColonOf(ls[0].content).Some?
    ensures FirstField(ls, pos).nameStart == pos && FirstField(ls, pos).colon == pos + ColonOf(ls[0].content).value
  {
  }

  lemma PlainPiece(block: string, l: Line, pos: nat, cursor: nat, tail: string)
    requires cursor <= pos && pos + Size(l) <= |block| && block[pos..pos + Size(l)] == l.content + l.ending
    ensures block[cursor..pos + Size(l)] + tail == block[cursor..pos] + (l.content + l.ending + tail)
  {
    assert block[cursor..pos + Size(l)] == block[cursor..pos] + (l.content + l.ending);
  }

  lemma RenamedPiece(block: string, l: Line, pos: nat, c: nat, cursor: nat, tail: string)
    requires cursor <= pos && pos + Size(l) <= |block| && block[pos..pos + Size(l)] == l.content + l.ending
             && c <= |l.content|
    ensures block[cursor..pos] + RENAMED_FIELD_NAME + (block[pos + c..pos + Size(l)] + tail)
         == block[cursor..pos] + ((RENAMED_FIELD_NAME + l.content[c..]) + l.ending + tail)
  {
    var text := l.content + l.ending;
    assert block[pos + c..pos + Size(l)] == text[c..] == l.content[c..] + l.ending;
  }

  method RewriteAuthenticationResults(block: string, idOf: IdReader, ours: string) returns (out: string)
    ensures out == Rewritten(block, idOf, ours)
  {
    hide FieldsAt, Lines, RenameLines, IsOurs;
    var fields := SplitFields(block);
    ghost var ls := Lines(block);
    LinesSplit(block);
    assert block[0..] == block;
    SpliceIsRename(block, ls, 0, 0, idOf, ours);
    var renames := ChooseRenames(block, fields, idOf, ours);
    assert block[0..0] + Rewritten(block, idOf, ours) == Rewritten(block, idOf, ours);
    if renames == [] { return block; }
    out := Splice(block, renames);
  }

  method ChooseRenames(block: string, fields: seq<Field>, idOf: IdReader, ours: string) returns (renames: seq<Field>)
    requires Fit(block, fields)
    ensures renames == Chosen(block, fields, idOf, ours)
  {
    hide IsOurs;
    renames := [];
    assert fields[0..] == fields;
    for i := 0 to |fields|
      invariant Fit(block, fields[i..]) && renames + Chosen(block, fields[i..], idOf, ours)
                == Chosen(block, fields, idOf, ours)
    {
      var f := fields[i];
      assert fields[i..][1..] == fields[i + 1..];
      if !IsOurs(block[f.nameStart..f.colon], f.rawValue, idOf, ours) { continue; }
      renames := renames + [f];
    }
  }

  method Splice(block: string, renames: seq<Field>) returns (out: string)
    requires InOrder(block, renames, 0)
    ensures out == Spliced(block, renames, 0)
  {
    out := "";
    var cursor: nat := 0;
    assert renames[0..] == renames;
    assert "" + Spliced(block, renames, 0) == Spliced(block, renames, 0);
    for i := 0 to |renames|
      invariant cursor <= |block| && InOrder(block, renames[i..], cursor)
      invariant out + Spliced(block, renames[i..], cursor) == Spliced(block, renames, 0)
    {
      var r := renames[i];
      assert renames[i..][1..] == renames[i + 1..];
      SplicedStep(block, renames[i..], cursor, out);
      out := out + block[cursor..r.nameStart] + RENAMED_FIELD_NAME;
      cursor := r.colon;
    }
    out := out + block[cursor..];
  }

  lemma SplicedStep(block: string, renames: seq<Field>, cursor: nat, out: string)
    requires renames != [] && cursor <= |block| && InOrder(block, renames, cursor)
    ensures var r := renames[0];
            cursor <= r.nameStart <= r.colon <= |block| && InOrder(block, renames[1..], r.colon) &&
            out + Spliced(block, renames, cursor) == (out + block[cursor..r.nameStart] + RENAMED_FIELD_NAME)
              + Spliced(block, renames[1..], r.colon)
  {
    var r := renames[0];
    var rest := Spliced(block, renames[1..], r.colon);
    assert out + (block[cursor..r.nameStart] + RENAMED_FIELD_NAME + rest)
      == (out + block[cursor..r.nameStart] + RENAMED_FIELD_NAME) + rest;
  }

  // --- the message as it is stored --------------------------------------------------------------

  function Dropped(s: string, n: nat): (r: string) { if n <= |s| then s[n..] else "" }

  /** Our trace fields, the header block rewritten, and the rest of the spool as it came. */
  method StreamFinalMessage(trace: string, header: HC.Captured, spool: seq<string>, idOf: IdReader, ours: string)
          returns (out: seq<string>)
    ensures Concat(out) == trace + (
      match header.block
      case None => Concat(spool)
      case Some(block) =>
        Rewritten(block, idOf, ours)
        + (if header.headerOnly then "" else Dropped(Concat(spool), |block|)))
  {
    hide Rewritten;
    out := [trace];
    ConcatPair("", trace);
    if header.block.None? {
      out := out + spool;
      ConcatSplit(out, 1);
      assert out[..1] == [trace] && out[1..] == spool;
      return;
    }
    var block := RewriteAuthenticationResults(header.block.value, idOf, ours);
    ConcatAppend(out, block);
    out := out + [block];
    assert trace + (block + "") == trace + block;
    if header.headerOnly { return; }
    var rest := SkipOctets(spool, |header.block.value|);
    ghost var head := out;
    out := out + rest;
    ConcatSplit(out, |head|);
    assert out[..|head|] == head && out[|head|..] == rest;
    assert (trace + block) + Concat(rest) == trace + (block + Concat(rest));
  }

  method SkipOctets(spool: seq<string>, n: nat) returns (out: seq<string>)
    ensures Concat(out) == Dropped(Concat(spool), n)
  {
    out := [];
    var skip := n;
    for i := 0 to |spool|
      invariant skip == if |Concat(spool[..i])| < n then n - |Concat(spool[..i])| else 0
      invariant Concat(out) == Dropped(Concat(spool[..i]), n)
    {
      var buf := spool[i];
      assert spool[..i + 1] == spool[..i] + [buf];
      ConcatAppend(spool[..i], buf);
      DroppedGrows(Concat(spool[..i]), buf, n);
      if skip == 0 {
        ConcatAppend(out, buf);
        out := out + [buf];
        continue;
      }
      if |buf| <= skip {
        skip := skip - |buf|;
        continue;
      }
      ConcatAppend(out, buf[skip..]);
      out := out + [buf[skip..]];
      skip := 0;
    }
    assert spool[..|spool|] == spool;
  }

  lemma DroppedGrows(x: string, buf: string, n: nat)
    ensures Dropped(x + buf, n) == if |x| >= n then Dropped(x, n) + buf else Dropped(buf, n - |x|)
    ensures |x| <= n ==> Dropped(x, n) == ""
  {
    if |x| < n { assert n <= |x + buf| ==> (x + buf)[n..] == buf[n - |x|..]; }
      else { assert (x + buf)[n..] == x[n..] + buf; }
  }

  /**
   An inbound message, captured in one chunking and read back from the spool in another. Unless its
   header block ends exactly at the limit, what is stored is our trace, the block with the fields that
   claim to be ours renamed, and the rest untouched; past the limit it is the trace and the message.
  */
  method StoreInbound(trace: string, arriving: seq<string>, spool: seq<string>, maxBytes: nat, idOf: IdReader,
          ours: string)
      returns (out: seq<string>)
    requires Concat(arriving) == Concat(spool) && !HC.AtLimit(Concat(arriving), maxBytes)
    ensures var msg := Concat(spool);
            var end := match HC.IndexOf(msg, 0) case Some(at) => at + 2 case None => |msg|;
            && end <= |msg|
            && Concat(out) == trace + if end <= maxBytes then Rewritten(msg[..end], idOf, ours) + msg[end..] else msg
  {
    hide Rewritten;
    var tap := new HC.HeaderTap(maxBytes);
    assert arriving[0..] == arriving;
    for i := 0 to |arriving|
      invariant tap.Valid() && tap.maxBytes == maxBytes
      invariant HC.PushAll(tap.Value(), arriving[i..], maxBytes) == HC.PushAll(HC.NEW_TAP, arriving, maxBytes)
    {
      assert arriving[i..][1..] == arriving[i + 1..];
      tap.Push(arriving[i]);
    }
    HC.CapturedAs(arriving, maxBytes);
    var header := tap.Finish();
    ghost var msg := Concat(spool);
    assert msg[..|msg|] == msg && msg[|msg|..] == "";
    out := StreamFinalMessage(trace, header, spool, idOf, ours);
  }
}
