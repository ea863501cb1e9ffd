/**
 The grammar of a ManageSieve command line, as text: which lines the reader accepts, and as which tokens (section 4
 of RFC 5804). The reader accepts exactly these.
*/
module SieveGrammar {
  import opened Decimal
  import opened ManageSieve
  import opened SieveLimits

  // --- the grammar ------------------------------------------------------------------------------

  ghost predicate AllDigits(s: string) { forall i :: 0 <= i < |s| ==> '0' <= s[i] <= '9' }

  ghost predicate AllLetters(s: string) { forall i :: 0 <= i < |s| ==> 'A' <= s[i] <= 'Z' || 'a' <= s[i] <= 'z' }

  /** The same letters in capitals. */
  ghost predicate InCapitals(s: string, u: string) {
    |u| == |s| &&
    forall i :: 0 <= i < |s| ==> if 'a' <= s[i] <= 'z' then u[i] as int == s[i] as int - 32 else u[i] == s[i]
  }

  ghost predicate LiteralText(text: string, v: string, digits: string, plus: string) {
    && 1 <= |digits| <= 10 && AllDigits(digits) && (plus == "" || plus == "+")
    && Number(DigitValues(digits)) == |v| && text == "{" + digits + plus + "}\r\n" + v
  }

  /** The text is a way to write the token. */
  ghost predicate Spells(text: string, t: Token, lim: Limits) {
    match t
    case Atom(name) => text != "" && AllLetters(text) && InCapitals(text, name)
    case Num(value) =>
      1 <= |text| <= 10 && AllDigits(text) && value == Number(DigitValues(text)) && value <= 4_294_967_295
    case Str(v, literal) =>
      if literal then |v| <= lim.maxLiteral && exists digits, plus :: LiteralText(text, v, digits, plus)
      else NoControls(v) && text == "\"" + Escape(v) + "\""
  }

  /** The octets of the text that count against the line limit: all but a literal's own. */
  function Weight(text: string, t: Token): (n: int) { |text| - DataOctets(t) }

  /** The arguments after the first token, each after one space, and the line end. */
  function Following(texts: seq<string>): (s: string) {
    if texts == [] then "\r\n" else " " + texts[0] + Following(texts[1..])
  }

  function FollowingWeight(texts: seq<string>, tokens: seq<Token>): (n: int)
    requires |texts| == |tokens|
  {
    if texts == [] then 0 else 1 + Weight(texts[0], tokens[0]) + FollowingWeight(texts[1..], tokens[1..])
  }

  ghost predicate AllSpell(texts: seq<string>, tokens: seq<Token>, lim: Limits) {
    |texts| == |tokens| && forall i :: 0 <= i < |texts| ==> Spells(texts[i], tokens[i], lim)
  }

  /** The line is these texts, which spell these tokens, and keeps to the line limit. */
  ghost predicate Written(line: string, texts: seq<string>, tokens: seq<Token>, lim: Limits) {
    && AllSpell(texts, tokens, lim) && tokens != []
    && line == texts[0] + Following(texts[1..])
    && Weight(texts[0], tokens[0]) + FollowingWeight(texts[1..], tokens[1..]) <= lim.maxLine
  }

  ghost predicate IsLine(line: string, tokens: seq<Token>, lim: Limits) {
    exists texts :: Written(line, texts, tokens, lim)
  }

  // --- what is accepted is of the grammar -------------------------------------------------------

  lemma {:induction false} QuotedSpells(b: string, start: nat, i: nat, out: string, lim: Limits) returns (v: string)
    requires start < i <= |b| && Quoted(b, start, i, out, lim).Got?
    ensures var r := Quoted(b, start, i, out, lim);
            && NoControls(v) && r.token == Str(out + v, false)
            && r.next == i + |Escape(v)| + 1 <= |b| && b[i..r.next] == Escape(v) + "\""
    decreases |b| - i
  {
    hide Escape;
    var r := Quoted(b, start, i, out, lim);
    if b[i] == '"' {
      v := "";
      NothingEscaped(b, i, out);
    } else if b[i] == '\\' {
      var rest := QuotedSpells(b, start, i + 2, out + [b[i + 1]], lim);
      v := [b[i + 1]] + rest;
      assert b[i..i + 2] == EscapedChar(b[i + 1]);
      SpelledCons(b, i, 2, r.next, b[i + 1], rest);
      Joined(out, b[i + 1], rest);
    } else {
      var rest := QuotedSpells(b, start, i + 1, out + [b[i]], lim);
      v := [b[i]] + rest;
      assert b[i..i + 1] == EscapedChar(b[i]);
      SpelledCons(b, i, 1, r.next, b[i], rest);
      Joined(out, b[i], rest);
    }
  }

  lemma NothingEscaped(b: string, i: nat, out: string)
    requires i < |b| && b[i] == '"'
    ensures out + "" == out && Escape("") == "" && b[i..i + 1] == Escape("") + "\"" && NoControls("")
  {
  }

  lemma Joined(out: string, c: char, rest: string)
    ensures out + [c] + rest == out + ([c] + rest)
  {
  }

  lemma SpelledCons(b: string, i: nat, n: nat, next: nat, c: char, rest: string)
    requires i + n <= next <= |b| && b[i..i + n] == EscapedChar(c) && b[i + n..next] == Escape(rest) + "\""
    requires n == |EscapedChar(c)|
    ensures b[i..next] == Escape([c] + rest) + "\"" && |Escape([c] + rest)| == n + |Escape(rest)|
  {
    assert ([c] + rest)[0] == c && ([c] + rest)[1..] == rest;
    assert b[i..next] == b[i..i + n] + b[i + n..next];
    assert EscapedChar(c) + (Escape(rest) + "\"") == EscapedChar(c) + Escape(rest) + "\"";
  }

  lemma LiteralSpells(b: string, i: nat, lim: Limits)
    requires i < |b| && b[i] == '{' && Literal(b, i, lim).Got?
    ensures var r := Literal(b, i, lim); Spells(b[i..r.next], r.token, lim)
  {
    var r := Literal(b, i, lim);
    hide RunEnd;
    var d := RunEnd(b, i + 1, IsDigit);
    var digits := b[i + 1..d];
    assert AllDigits(digits) by { assert forall k :: 0 <= k < |digits| ==> digits[k] == b[i + 1 + k]; }
    var j := if b[d] == '+' then d + 1 else d;
    var plus, v := b[d..j], r.token.text;
    assert plus == "" || plus == "+";
    hide Number, DigitValues;
    Pieces(b, i, d, j, r.next);
    assert LiteralText(b[i..r.next], v, digits, plus);
  }

  lemma Pieces(b: string, i: nat, d: nat, j: nat, next: nat)
    requires i < d <= j && j + 3 <= next <= |b|
    requires b[i] == '{' && b[j] == '}' && b[j + 1] == '\r' && b[j + 2] == '\n'
    ensures b[i..next] == "{" + b[i + 1..d] + b[d..j] + "}\r\n" + b[j + 3..next]
  {
    assert b[i..i + 1] == "{" && b[j..j + 3] == "}\r\n";
    assert b[i..next] == b[i..i + 1] + b[i + 1..d] + b[d..j] + b[j..j + 3] + b[j + 3..next];
  }

  /** Every token read is spelled by the text it was read from. */
  lemma ScanSpells(b: string, i: nat, lim: Limits)
    requires i < |b| && ScanToken(b, i, lim).Got?
    ensures var r := ScanToken(b, i, lim);
            Spells(b[i..r.next], r.token, lim) && r.cost == Weight(b[i..r.next], r.token)
  {
    var r := ScanToken(b, i, lim);
    ScanAccounts(b, i, lim);
    hide RunEnd, Literal;
    if b[i] == '"' {
      var v := QuotedSpells(b, i, i + 1, [], lim);
      assert [] + v == v && b[i..r.next] == [b[i]] + b[i + 1..r.next];
      assert "\"" + (Escape(v) + "\"") == "\"" + Escape(v) + "\"";
    } else if b[i] == '{' {
      LiteralSpells(b, i, lim);
    } else {
      var text := b[i..r.next];
      assert forall k :: 0 <= k < |text| ==> text[k] == b[i + k];
    }
  }

  lemma FollowingCons(text: string, texts: seq<string>)
    ensures Following([text] + texts) == " " + text + Following(texts)
  {
    assert ([text] + texts)[1..] == texts;
  }

  lemma WeightCons(text: string, texts: seq<string>, t: Token, tokens: seq<Token>)
    requires |texts| == |tokens|
    ensures FollowingWeight([text] + texts, [t] + tokens) == 1 + Weight(text, t) + FollowingWeight(texts, tokens)
  {
    assert ([text] + texts)[1..] == texts && ([t] + tokens)[1..] == tokens;
  }

  lemma SpellCons(text: string, texts: seq<string>, t: Token, tokens: seq<Token>, lim: Limits)
    requires Spells(text, t, lim) && AllSpell(texts, tokens, lim)
    ensures AllSpell([text] + texts, [t] + tokens, lim)
  {
    hide Spells;
  }

  /** After the first token: what is accepted from here on. */
  lemma {:induction false} ParseSpells(b: string, i: nat, octets: nat, done: seq<Token>, lim: Limits)
          returns (texts: seq<string>, more: seq<Token>)
    requires i <= |b| && done != [] && ParseFrom(b, i, octets, done, lim).Line?
    ensures var p := ParseFrom(b, i, octets, done, lim);
            && p.tokens == done + more && AllSpell(texts, more, lim)
            && i <= p.end <= |b| && b[i..p.end] == Following(texts)
            && octets + FollowingWeight(texts, more) <= lim.maxLine
    decreases |b| - i
  {
    hide ScanToken, Spells, ParseFrom;
    NextAccepted(b, i, octets, done, lim);
    if b[i] == '\r' {
      texts, more := [], [];
      assert done + more == done && b[i..i + 2] == "\r\n";
    } else {
      var r := ScanToken(b, i + 1, lim);
      ScanSpells(b, i + 1, lim);
      var text := b[i + 1..r.next];
      var rest, tokens := ParseSpells(b, r.next, octets + 1 + r.cost, done + [r.token], lim);
      texts, more := [text] + rest, [r.token] + tokens;
      FollowingCons(text, rest);
      WeightCons(text, rest, r.token, tokens);
      SpellCons(text, rest, r.token, tokens, lim);
      hide Following, FollowingWeight, AllSpell;
      assert done + [r.token] + tokens == done + more;
      ThreeParts(b, i, r.next, ParseFrom(b, i, octets, done, lim).end);
    }
  }

  /** A line that is accepted goes on with its end, or with a space and a token. */
  lemma NextAccepted(b: string, i: nat, octets: nat, done: seq<Token>, lim: Limits)
    requires i <= |b| && done != [] && ParseFrom(b, i, octets, done, lim).Line?
    ensures i + 1 < |b| && octets <= lim.maxLine
    ensures b[i] == '\r' ==> b[i + 1] == '\n' && ParseFrom(b, i, octets, done, lim) == Line(done, i + 2)
    ensures b[i] != '\r' ==>
              && b[i] == ' ' && ScanToken(b, i + 1, lim).Got?
              && var r := ScanToken(b, i + 1, lim);
                 ParseFrom(b, i, octets, done, lim) == ParseFrom(b, r.next, octets + 1 + r.cost, done + [r.token], lim)
  {
    hide ScanToken, FailAt;
  }

  lemma ThreeParts(b: string, i: nat, next: nat, end: nat)
    requires i < next <= end <= |b| && b[i] == ' '
    ensures b[i..end] == " " + b[i + 1..next] + b[next..end]
  {
    assert b[i..i + 1] == " ";
    assert b[i..end] == b[i..i + 1] + b[i + 1..next] + b[next..end];
  }

  /** A line that is accepted is of the grammar. */
  lemma AcceptedIsLine(b: string, lim: Limits)
    requires ParseBuffer(b, lim).Line?
    ensures var p := ParseBuffer(b, lim); p.end <= |b| && IsLine(b[..p.end], p.tokens, lim)
  {
    hide ScanToken, Spells;
    var p, r := ParseBuffer(b, lim), ScanToken(b, 0, lim);
    ScanSpells(b, 0, lim);
    var text := b[0..r.next];
    assert [] + [r.token] == [r.token];
    var rest, more := ParseSpells(b, r.next, r.cost, [r.token], lim);
    var texts := [text] + rest;
    SpellCons(text, rest, r.token, more, lim);
    assert b[..p.end] == text + b[r.next..p.end];
    assert texts[1..] == rest && p.tokens[1..] == more && p.tokens[0] == r.token;
    assert Written(b[..p.end], texts, p.tokens, lim);
  }

  // --- what is of the grammar is accepted -------------------------------------------------------

  lemma AtIndex(b: string, i: nat, w: string, k: nat)
    requires At(b, i, w) && k < |w|
    ensures b[i + k] == w[k]
  {
    assert b[i..i + |w|][k] == w[k];
  }

  lemma AtomScans(b: string, i: nat, text: string, name: string)
    requires text != "" && AllLetters(text) && InCapitals(text, name) && At(b, i, text)
    requires i + |text| < |b| && !IsLetter(b[i + |text|])
    ensures IsLetter(b[i]) && Word(b, i) == Got(Atom(name), i + |text|, |text|)
  {
    hide RunEnd;
    forall c | c in text ensures IsLetter(c) {
      var k :| 0 <= k < |text| && text[k] == c;
    }
    RunEndAt(b, i, text, IsLetter);
    AtIndex(b, i, text, 0);
    assert UpperAll(text) == name;
  }

  lemma NumberScans(b: string, i: nat, text: string, value: nat)
    requires 1 <= |text| <= 10 && AllDigits(text) && value == Number(DigitValues(text)) <= 4_294_967_295
             && At(b, i, text)
    requires i + |text| < |b| && !IsDigit(b[i + |text|])
    ensures IsDigit(b[i]) && Numeric(b, i) == Got(Num(value), i + |text|, |text|)
  {
    hide RunEnd, Number, DigitValues;
    forall c | c in text ensures IsDigit(c) {
      var k :| 0 <= k < |text| && text[k] == c;
    }
    RunEndAt(b, i, text, IsDigit);
    AtIndex(b, i, text, 0);
  }

  lemma QuotedScans(b: string, i: nat, text: string, v: string, lim: Limits)
    requires NoControls(v) && text == "\"" + Escape(v) + "\"" && At(b, i, text)
    ensures b[i] == '"' && Quoted(b, i, i + 1, "", lim) == Got(Str(v, false), i + |text|, |text|)
  {
    hide Escape, Quoted;
    AtSplit(b, i, "\"" + Escape(v), "\"");
    AtSplit(b, i, "\"", Escape(v));
    AtIndex(b, i, text, 0);
    QuotedRoundTrip(b, i, i + 1, "", v, lim);
    assert "" + v == v;
  }

  lemma LiteralScans(b: string, i: nat, text: string, v: string, digits: string, plus: string, lim: Limits)
    requires LiteralText(text, v, digits, plus) && |v| <= lim.maxLiteral && At(b, i, text)
    ensures b[i] == '{' && Literal(b, i, lim) == Got(Str(v, true), i + |text|, |text| - |v|)
  {
    hide RunEnd, Number, DigitValues, LiteralHead;
    var head := "{" + digits + plus + "}\r\n";
    AtSplit(b, i, head, v);
    AtSplit(b, i, "{" + digits + plus, "}\r\n");
    AtSplit(b, i, "{" + digits, plus);
    AtSplit(b, i, "{", digits);
    AtIndex(b, i, "{", 0);
    var d := i + 1 + |digits|;
    var j := d + |plus|;
    forall c | c in digits ensures IsDigit(c) {
      var k :| 0 <= k < |digits| && digits[k] == c;
    }
    AtIndex(b, j, "}\r\n", 0);
    if plus == "+" { AtIndex(b, d, plus, 0); }
    RunEndAt(b, i + 1, digits, IsDigit);
    assert b[i + 1..d] == digits;
    HeadScans(b, i, d, j, v, lim);
  }

  lemma HeadScans(b: string, i: nat, d: nat, j: nat, v: string, lim: Limits)
    requires i < d <= j && At(b, j, "}\r\n") && At(b, j + 3, v) && |v| <= lim.maxLiteral && d < |b|
    requires if b[d] == '+' then j == d + 1 else j == d
    ensures LiteralHead(b, i, d, |v|, lim) == Got(Str(v, true), j + 3 + |v|, j + 3 - i)
  {
    AtIndex(b, j, "}\r\n", 0);
    AtIndex(b, j, "}\r\n", 1);
    AtIndex(b, j, "}\r\n", 2);
  }

  /** Every way to write a token is read as the token, wherever it stands before a space or the line end. */
  lemma SpelledScans(b: string, i: nat, text: string, t: Token, lim: Limits)
    requires Spells(text, t, lim) && At(b, i, text) && i + |text| < |b|
             && (b[i + |text|] == ' ' || b[i + |text|] == '\r')
    ensures |text| > 0 && ScanToken(b, i, lim) == Got(t, i + |text|, Weight(text, t))
    ensures b[i] != '\r' && b[i] != '\n'
  {
    hide Quoted, Literal, Numeric, Word, Escape;
    match t
    case Atom(name) => AtomScans(b, i, text, name);
    case Num(value) => NumberScans(b, i, text, value);
    case Str(v, true) =>
      var digits, plus :| LiteralText(text, v, digits, plus);
      LiteralScans(b, i, text, v, digits, plus, lim);
    case Str(v, false) => QuotedScans(b, i, text, v, lim);
  }

  lemma FollowingStarts(texts: seq<string>)
    ensures |Following(texts)| >= 2 && (Following(texts)[0] == ' ' || Following(texts)[0] == '\r')
  {
    if texts != [] { assert |Following(texts[1..])| >= 1 by { FollowingStarts(texts[1..]); } }
  }

  lemma SpelledThen(b: string, i: nat, text: string, t: Token, rest: seq<string>, lim: Limits)
    requires Spells(text, t, lim) && At(b, i, text + Following(rest))
    ensures At(b, i + |text|, Following(rest)) && i < |b| && |text| > 0
    ensures ScanToken(b, i, lim) == Got(t, i + |text|, Weight(text, t)) && b[i] != '\r' && b[i] != '\n'
  {
    hide Spells, ScanToken, Following, Weight;
    AtSplit(b, i, text, Following(rest));
    FollowingStarts(rest);
    AtIndex(b, i + |text|, Following(rest), 0);
    SpelledScans(b, i, text, t, lim);
  }

  lemma {:induction false} WeightsAdd(texts: seq<string>, tokens: seq<Token>, lim: Limits)
    requires AllSpell(texts, tokens, lim)
    ensures FollowingWeight(texts, tokens) >= 0
    decreases |texts|
  {
    if texts != [] {
      assert Spells(texts[0], tokens[0], lim);
      WeightIsNatural(texts[0], tokens[0], lim);
      TailSpells(texts, tokens, lim);
      WeightsAdd(texts[1..], tokens[1..], lim);
    }
  }

  lemma WeightIsNatural(text: string, t: Token, lim: Limits)
    requires Spells(text, t, lim)
    ensures Weight(text, t) >= 0
  {
    hide Escape, Number, DigitValues;
    if t.Str? && t.literal {
      var digits, plus :| LiteralText(text, t.text, digits, plus);
    }
  }

  lemma TailSpells(texts: seq<string>, tokens: seq<Token>, lim: Limits)
    requires AllSpell(texts, tokens, lim) && texts != []
    ensures AllSpell(texts[1..], tokens[1..], lim)
  {
    hide Spells;
    forall k | 0 <= k < |texts[1..]| ensures Spells(texts[1..][k], tokens[1..][k], lim) {
      assert Spells(texts[k + 1], tokens[k + 1], lim);
    }
  }

  lemma {:induction false} FollowingParses(b: string, i: nat, octets: nat, done: seq<Token>, texts: seq<string>,
          tokens: seq<Token>, lim: Limits)
    requires done != [] && AllSpell(texts, tokens, lim) && At(b, i, Following(texts))
    requires octets + FollowingWeight(texts, tokens) <= lim.maxLine
    ensures ParseFrom(b, i, octets, done, lim) == Line(done + tokens, i + |Following(texts)|)
    decreases |texts|
  {
    hide ScanToken, Spells, FailAt, Weight;
    WeightsAdd(texts, tokens, lim);
    if texts == [] {
      AtIndex(b, i, "\r\n", 0);
      AtIndex(b, i, "\r\n", 1);
      assert done + tokens == done;
    } else {
      var text, t, rest, more := texts[0], tokens[0], texts[1..], tokens[1..];
      assert Spells(text, t, lim);
      TailSpells(texts, tokens, lim);
      WeightsAdd(rest, more, lim);
      WeightIsNatural(text, t, lim);
      OneParses(b, i, octets, done, text, t, rest, lim);
      hide ParseFrom;
      FollowingParses(b, i + 1 + |text|, octets + 1 + Weight(text, t), done + [t], rest, more, lim);
      assert done + [t] + more == done + tokens;
    }
  }

  lemma OneParses(b: string, i: nat, octets: nat, done: seq<Token>, text: string, t: Token, rest: seq<string>,
          lim: Limits)
    requires done != [] && Spells(text, t, lim) && At(b, i, " " + text + Following(rest)) && octets <= lim.maxLine
    requires Weight(text, t) >= 0
    ensures var next := i + 1 + |text|;
            && At(b, next, Following(rest))
            && ParseFrom(b, i, octets, done, lim) == ParseFrom(b, next, octets + 1 + Weight(text, t), done + [t], lim)
  {
    hide ScanToken, Spells, FailAt, Weight, Following;
    assert " " + text + Following(rest) == " " + (text + Following(rest));
    AtSplit(b, i, " ", text + Following(rest));
    AtIndex(b, i, " ", 0);
    SpelledThen(b, i + 1, text, t, rest, lim);
  }

  lemma WrittenParses(b: string, line: string, texts: seq<string>, tokens: seq<Token>, lim: Limits)
    requires Written(line, texts, tokens, lim) && line <= b
    ensures ParseBuffer(b, lim) == Line(tokens, |line|)
  {
    hide ScanToken, Spells, Following, FollowingWeight, Weight, FailAt;
    var text, t, rest, more := texts[0], tokens[0], texts[1..], tokens[1..];
    assert Spells(text, t, lim);
    TailSpells(texts, tokens, lim);
    assert b[0..0 + |line|] == line;
    SpelledThen(b, 0, text, t, rest, lim);
    WeightsAdd(rest, more, lim);
    WeightIsNatural(text, t, lim);
    assert [] + [t] == [t];
    FollowingParses(b, |text|, Weight(text, t), [t], rest, more, lim);
    assert [t] + more == tokens;
  }

  /**
   The reader accepts a line as these tokens if and only if the text up to the line's end is one of the
   grammar for them.
  */
  lemma AcceptsExactly(b: string, tokens: seq<Token>, end: nat, lim: Limits)
    ensures ParseBuffer(b, lim) == Line(tokens, end) <==> end <= |b| && IsLine(b[..end], tokens, lim)
  {
    hide ParseBuffer, Written;
    if ParseBuffer(b, lim) == Line(tokens, end) { AcceptedIsLine(b, lim); }
    if end <= |b| && IsLine(b[..end], tokens, lim) {
      var texts :| Written(b[..end], texts, tokens, lim);
      WrittenParses(b, b[..end], texts, tokens, lim);
    }
  }
}
