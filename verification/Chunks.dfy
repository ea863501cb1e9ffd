/** A stream of octets, as the chunks it arrives in. An octet is a char below 256. */
module Chunks {

  function Concat(chunks: seq<string>): (t: string) {
    if chunks == [] then "" else chunks[0] + Concat(chunks[1..])
  }

  lemma {:induction false} ConcatAppend(chunks: seq<string>, x: string)
    ensures Concat(chunks + [x]) == Concat(chunks) + x
  {
    if chunks == [] {
      assert chunks + [x] == [x] && [x][1..] == [];
    } else {
      assert (chunks + [x])[1..] == chunks[1..] + [x];
      ConcatAppend(chunks[1..], x);
    }
  }

  lemma {:induction false} ConcatSplit(chunks: seq<string>, i: nat)
    requires i <= |chunks|
    ensures Concat(chunks) == Concat(chunks[..i]) + Concat(chunks[i..])
    decreases i
  {
    if i == 0 {
      assert chunks[..0] == [] && chunks[0..] == chunks;
      assert "" + Concat(chunks) == Concat(chunks);
    } else {
      ConcatSplit(chunks[1..], i - 1);
      assert chunks[..i][1..] == chunks[1..][..i - 1] && chunks[1..][i - 1..] == chunks[i..];
      var a, b, c := chunks[0], Concat(chunks[..i][1..]), Concat(chunks[i..]);
      assert a + (b + c) == (a + b) + c;
    }
  }

  /** Two chunks, and one. */
  lemma ConcatPair(x: string, y: string)
    ensures Concat([x, y]) == x + y && Concat([y]) == y
  {
    var pair, one := [x, y], [y];
    assert pair[1..] == one && one[1..] == [];
    assert y + Concat([]) == y;
  }
}
