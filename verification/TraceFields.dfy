/**
 The rewrite on header blocks as they are written: fields of a name and a value that may be folded over
 lines (section 2.2 of RFC 5322). What is read back is what was written, and the rewrite changes names only.
*/
module TraceFields {
  import opened Sets
  import Flags
  import opened TraceRewrite

  /** A field as written: its name, the rest of its first line, and the lines it is folded over. */
  datatype Field = Field(name: string, first: string, folds: seq<string>)

  ghost predicate GoodName(name: string) {
    name != "" && forall i :: 0 <= i < |name| ==> 33 <= name[i] as int <= 126 && name[i] != ':'
  }

  ghost predicate GoodLine(s: string) {
    (forall i :: 0 <= i < |s| ==> s[i] != '\n') && (s == "" || s[|s| - 1] != '\r')
  }

  ghost predicate GoodFold(s: string) {
    GoodLine(s) && s != "" && (s[0] == ' ' || s[0] == '\t')
  }

  ghost predicate Good(f: Field) {
    GoodName(f.name) && GoodLine(f.first) && forall s :: s in f.folds ==> GoodFold(s)
  }

  function Unfolded(folds: seq<string>): (v: string) {
    if folds == [] then "" else folds[0] + Unfolded(folds[1..])
  }

  function Value(f: Field): (v: string) { f.first + Unfolded(f.folds) }

  function FoldLines(folds: seq<string>): (ls: seq<Line>) {
    seq(|folds|, i requires 0 <= i < |folds| => Line(folds[i], "\r\n"))
  }

  function LinesOf(f: Field): (ls: seq<Line>) {
    [Line(f.name + ":" + f.first, "\r\n")] + FoldLines(f.folds)
  }

  function AllLines(fs: seq<Field>): (ls: seq<Line>) {
    if fs == [] then [] else LinesOf(fs[0]) + AllLines(fs[1..])
  }

  /** The header block of these fields. */
  function Block(fs: seq<Field>): (t: string) { Join(AllLines(fs)) }

  /** As text: name, colon and first line, then each fold on its own line. */
  lemma {:induction false} BlockText(fs: seq<Field>)
    ensures fs == [] ==> Block(fs) == ""
    ensures fs != [] && fs[0].folds == [] ==>
              Block(fs) == fs[0].name + ":" + fs[0].first + "\r\n" + Block(fs[1..])
    ensures fs != [] && fs[0].folds != [] ==>
              Block(fs) == fs[0].name + ":" + fs[0].first + "\r\n"
                           + Join(FoldLines(fs[0].folds) + AllLines(fs[1..]))
  {
    if fs != [] {
      var f := fs[0];
      var ls := AllLines(fs);
      assert ls[0] == Line(f.name + ":" + f.first, "\r\n") && ls[1..] == FoldLines(f.folds) + AllLines(fs[1..]);
      assert f.folds == [] ==> FoldLines(f.folds) + AllLines(fs[1..]) == AllLines(fs[1..]);
    }
  }

  // --- the lines are good lines -----------------------------------------------------------------

  lemma FieldLinesOk(f: Field)
    requires Good(f)
    ensures forall l :: l in LinesOf(f) ==> LineOk(l, false)
  {
    var first := f.name + ":" + f.first;
    assert forall i :: 0 <= i < |first| ==> first[i] != '\n';
    forall l | l in LinesOf(f) ensures LineOk(l, false) {
      if l != LinesOf(f)[0] {
        assert l in FoldLines(f.folds);
        assert l.content in f.folds;
      }
    }
  }

  lemma {:induction false} AllLinesOk(fs: seq<Field>)
    requires forall f :: f in fs ==> Good(f)
    ensures forall l :: l in AllLines(fs) ==> LineOk(l, false)
  {
    hide LineOk, Good;
    if fs != [] {
      assert fs[0] in fs;
      FieldLinesOk(fs[0]);
      AllLinesOk(fs[1..]);
    }
  }

  lemma EveryLineOk(ls: seq<Line>)
    requires forall l :: l in ls ==> LineOk(l, false)
    ensures LinesOk(ls)
  {
    forall i | 0 <= i < |ls| ensures LineOk(ls[i], i == |ls| - 1) {
      assert ls[i] in ls;
    }
  }

  lemma BlockSplits(fs: seq<Field>)
    requires forall f :: f in fs ==> Good(f)
    ensures Lines(Block(fs)) == AllLines(fs)
  {
    AllLinesOk(fs);
    EveryLineOk(AllLines(fs));
    SplitJoin(AllLines(fs));
  }

  // --- reading back -----------------------------------------------------------------------------

  lemma FirstColon(f: Field)
    requires Good(f)
    ensures var line := f.name + ":" + f.first;
            ColonOf(line) == Some(|f.name|) && line[..|f.name|] == f.name && line[|f.name| + 1..] == f.first
            && line[|f.name|..] == ":" + f.first && !IsContinuation(line)
  {
    var rest := ":" + f.first;
    assert f.name + ":" + f.first == f.name + rest;
    ColonAfter(f.name, rest, 0);
    assert (f.name + rest)[0] == f.name[0];
  }

  /** What does not go on with a continuation line. */
  predicate Starts(ls: seq<Line>) { ls == [] || !IsContinuation(ls[0].content) }

  lemma FieldsStart(fs: seq<Field>)
    requires forall f :: f in fs ==> Good(f)
    ensures Starts(AllLines(fs))
  {
    if fs != [] {
      assert fs[0] in fs;
      FirstColon(fs[0]);
      assert AllLines(fs)[0] == LinesOf(fs[0])[0];
    }
  }

  lemma {:induction false} FoldsContinue(folds: seq<string>, rest: seq<Line>)
    requires (forall s :: s in folds ==> GoodFold(s)) && Starts(rest)
    ensures Continued(FoldLines(folds) + rest) == Unfolded(folds)
    decreases |folds|
  {
    var ls := FoldLines(folds) + rest;
    if folds == [] {
      assert ls == rest;
    } else {
      assert ls[0].content == folds[0] && folds[0] in folds;
      assert ls[1..] == FoldLines(folds[1..]) + rest;
      FoldsContinue(folds[1..], rest);
    }
  }

  lemma FoldHasNoColon(s: string)
    requires GoodFold(s)
    ensures ColonOf(s) == None
  {
  }

  lemma {:induction false} FoldsAreNoFields(folds: seq<string>, rest: seq<Line>)
    requires forall s :: s in folds ==> GoodFold(s)
    ensures FieldsOf(FoldLines(folds) + rest) == FieldsOf(rest)
    decreases |folds|
  {
    hide GoodFold, ColonOf, Continued;
    var ls := FoldLines(folds) + rest;
    if folds == [] {
      assert ls == rest;
    } else {
      assert ls[0].content == folds[0] && folds[0] in folds;
      FoldHasNoColon(folds[0]);
      assert ls[1..] == FoldLines(folds[1..]) + rest;
      FoldsAreNoFields(folds[1..], rest);
    }
  }

  function ReadBack(fs: seq<Field>): (r: seq<NameValue>) {
    seq(|fs|, i requires 0 <= i < |fs| => NameValue(fs[i].name, Value(fs[i])))
  }

  lemma {:induction false} LinesReadBack(fs: seq<Field>)
    requires forall f :: f in fs ==> Good(f)
    ensures FieldsOf(AllLines(fs)) == ReadBack(fs)
    decreases |fs|
  {
    hide Good, ColonOf, Continued, Starts;
    if fs != [] {
      var f, rest := fs[0], fs[1..];
      assert f in fs && forall g :: g in rest ==> g in fs;
      LinesReadBack(rest);
      var ls, more := AllLines(fs), FoldLines(f.folds) + AllLines(rest);
      assert ls[0].content == f.name + ":" + f.first && ls[1..] == more;
      FirstColon(f);
      FieldsStart(rest);
      GoodFolds(f);
      FoldsContinue(f.folds, AllLines(rest));
      FoldsAreNoFields(f.folds, AllLines(rest));
      assert ReadBack(fs) == [NameValue(f.name, Value(f))] + ReadBack(rest);
    }
  }

  lemma GoodFolds(f: Field)
    requires Good(f)
    ensures forall s :: s in f.folds ==> GoodFold(s)
  {
  }

  /** Every block of well-written fields is read back as those fields, each value with its folds taken out. */
  lemma WrittenIsRead(fs: seq<Field>)
    requires forall f :: f in fs ==> Good(f)
    ensures FieldsOf(Lines(Block(fs))) == ReadBack(fs)
  {
    BlockSplits(fs);
    LinesReadBack(fs);
  }

  // --- rewriting --------------------------------------------------------------------------------

  const OUR_NAME: string := "authentication-results"

  const NEW_NAME: string := "X-Original-Authentication-Results"

  /** The field as the rewrite should leave it. */
  function Renamed(f: Field, idOf: IdReader, ours: string): (r: Field) {
    if Flags.Lower(f.name) == OUR_NAME && idOf(Value(f)) == Some(ours) then f.(name := NEW_NAME) else f
  }

  function AllRenamed(fs: seq<Field>, idOf: IdReader, ours: string): (r: seq<Field>) {
    seq(|fs|, i requires 0 <= i < |fs| => Renamed(fs[i], idOf, ours))
  }

  lemma {:induction false} FoldsKept(folds: seq<string>, rest: seq<Line>, idOf: IdReader, ours: string)
    requires forall s :: s in folds ==> GoodFold(s)
    ensures RenameLines(FoldLines(folds) + rest, idOf, ours) == FoldLines(folds) + RenameLines(rest, idOf, ours)
    decreases |folds|
  {
    hide GoodFold, ColonOf, Continued;
    var ls := FoldLines(folds) + rest;
    if folds == [] {
      assert ls == rest && FoldLines(folds) + RenameLines(rest, idOf, ours) == RenameLines(rest, idOf, ours);
    } else {
      assert ls[0] == Line(folds[0], "\r\n") && folds[0] in folds;
      FoldHasNoColon(folds[0]);
      assert ls[1..] == FoldLines(folds[1..]) + rest;
      FoldsKept(folds[1..], rest, idOf, ours);
      assert [ls[0]] + FoldLines(folds[1..]) == FoldLines(folds);
    }
  }

  lemma FirstRenamed(f: Field, more: seq<Line>, idOf: IdReader, ours: string)
    requires Good(f) && Continued(more) == Unfolded(f.folds)
    ensures NewFirst([Line(f.name + ":" + f.first, "\r\n")] + more, idOf, ours)
            == Line(Renamed(f, idOf, ours).name + ":" + f.first, "\r\n")
  {
    hide Good, ColonOf, Continued, Unfolded;
    FirstColon(f);
    var line := Line(f.name + ":" + f.first, "\r\n");
    assert ([line] + more)[1..] == more;
    assert NEW_NAME + (":" + f.first) == NEW_NAME + ":" + f.first;
  }

  lemma OneRenamed(f: Field, tail: seq<Line>, idOf: IdReader, ours: string)
    requires Good(f) && Starts(tail)
    ensures RenameLines(LinesOf(f) + tail, idOf, ours) == LinesOf(Renamed(f, idOf, ours))
            + RenameLines(tail, idOf, ours)
  {
    hide Good, NewFirst, Continued, Starts, Renamed, Unfolded;
    var more, line := FoldLines(f.folds) + tail, Line(f.name + ":" + f.first, "\r\n");
    var ls := [line] + more;
    assert LinesOf(f) + tail == ls && ls[1..] == more;
    GoodFolds(f);
    FoldsContinue(f.folds, tail);
    FirstRenamed(f, more, idOf, ours);
    FoldsKept(f.folds, tail, idOf, ours);
    RenamedKeeps(f, idOf, ours);
    var first := NewFirst(ls, idOf, ours);
    assert RenameLines(ls, idOf, ours) == [first] + RenameLines(more, idOf, ours);
    hide RenameLines;
    assert [first] + (FoldLines(f.folds) + RenameLines(tail, idOf, ours))
           == ([first] + FoldLines(f.folds)) + RenameLines(tail, idOf, ours);
  }

  lemma {:induction false} LinesRenamed(fs: seq<Field>, idOf: IdReader, ours: string)
    requires forall f :: f in fs ==> Good(f)
    ensures RenameLines(AllLines(fs), idOf, ours) == AllLines(AllRenamed(fs, idOf, ours))
    decreases |fs|
  {
    hide Good, Starts, Renamed, LinesOf;
    if fs != [] {
      var f, rest := fs[0], fs[1..];
      assert f in fs && forall g :: g in rest ==> g in fs;
      LinesRenamed(rest, idOf, ours);
      FieldsStart(rest);
      hide RenameLines;
      OneRenamed(f, AllLines(rest), idOf, ours);
      var all := AllRenamed(fs, idOf, ours);
      assert all[0] == Renamed(f, idOf, ours) && all[1..] == AllRenamed(rest, idOf, ours);
    }
  }

  lemma RenamedKeeps(f: Field, idOf: IdReader, ours: string)
    ensures Renamed(f, idOf, ours).first == f.first && Renamed(f, idOf, ours).folds == f.folds
  {
  }

  /**
   The rewrite of a block of well-written fields is the block with exactly the Authentication-Results fields that
   claim to be ours, whatever the case of their name, under the new name, and every other octet as it was.
  */
  lemma RewriteIs(fs: seq<Field>, idOf: IdReader, ours: string)
    requires forall f :: f in fs ==> Good(f)
    ensures Rewritten(Block(fs), idOf, ours) == Block(AllRenamed(fs, idOf, ours))
  {
    BlockSplits(fs);
    LinesRenamed(fs, idOf, ours);
  }
}
