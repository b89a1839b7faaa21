/**
 * The ESC visualiser (flatten.py): copies its input line by line, writing
 * every ESC (0x1B) as the five characters `{ESC}` and every other character
 * unchanged.
 */
module Flatten {
  const Esc: char := '\U{001B}'
  const EscMarker: string := "{ESC}"

  /** What one input character is written as. */
  function Piece(c: char): (r: string)
    ensures c == Esc ==> r == EscMarker
    ensures c != Esc ==> r == [c]
  {
    if c == Esc then EscMarker else [c]
  }

  /** The reference definition: each character replaced by its piece, in order. */
  function Flattened(s: string): string {
    if s == [] then [] else Piece(s[0]) + Flattened(s[1..])
  }

  /** The lines of the input joined back together. */
  function Concat(lines: seq<string>): (s: string)
    ensures |lines| == 1 ==> s == lines[0]
  {
    if lines == [] then [] else Concat(lines[..|lines| - 1]) + lines[|lines| - 1]
  }

  /**
   * The script: for each line, for each character, write its piece.  The
   * output is the whole input flattened.
   */
  method FlattenLines(lines: seq<string>) returns (out: string)
    ensures out == Flattened(Concat(lines))
  {
    out := [];
    var i := 0;
    while i < |lines|
      invariant i <= |lines|
      invariant out == Flattened(Concat(lines[..i]))
    {
      var line := lines[i];
      ghost var done := out;
      var j := 0;
      while j < |line|
        invariant j <= |line|
        invariant out == done + Flattened(line[..j])
      {
        PieceStep(done, line, j);
        out := out + Piece(line[j]);
        j := j + 1;
      }
      LineStep(lines, i);
      i := i + 1;
    }
    assert lines[..i] == lines;
  }

  /** One more character of a line adds its piece. */
  lemma PieceStep(done: string, line: string, j: nat)
    requires j < |line|
    ensures done + Flattened(line[..j]) + Piece(line[j]) == done + Flattened(line[..j + 1])
  {
    assert line[..j + 1] == line[..j] + [line[j]];
    FlattenedAppend(line[..j], [line[j]]);
    assert Flattened([line[j]]) == Piece(line[j]) by {
      assert [line[j]][1..] == [];
    }
  }

  /** One more line adds the flattening of that line. */
  lemma LineStep(lines: seq<string>, i: nat)
    requires i < |lines|
    ensures Flattened(Concat(lines[..i])) + Flattened(lines[i][..|lines[i]|]) == Flattened(Concat(lines[..i + 1]))
  {
    assert lines[i][..|lines[i]|] == lines[i];
    assert lines[..i + 1][..i] == lines[..i];
    FlattenedAppend(Concat(lines[..i]), lines[i]);
  }

  /** Flattening distributes over concatenation. */
  lemma {:induction false} FlattenedAppend(a: string, b: string)
    ensures Flattened(a + b) == Flattened(a) + Flattened(b)
  {
    if a == [] {
      assert a + b == b;
    } else {
      assert (a + b)[0] == a[0];
      assert (a + b)[1..] == a[1..] + b;
      FlattenedAppend(a[1..], b);
    }
  }

  /** So where the input is split into lines does not change the output. */
  lemma {:induction false} LineSplitIrrelevant(lines: seq<string>)
    ensures Flattened(Concat(lines)) == Concat(seq(|lines|, i requires 0 <= i < |lines| => Flattened(lines[i])))
  {
    if lines != [] {
      var front := lines[..|lines| - 1];
      LineSplitIrrelevant(front);
      FlattenedAppend(Concat(front), lines[|lines| - 1]);
      var all := seq(|lines|, i requires 0 <= i < |lines| => Flattened(lines[i]));
      assert all[..|lines| - 1] == seq(|front|, i requires 0 <= i < |front| => Flattened(front[i]));
    }
  }

  /** Input without ESC comes out unchanged; in particular empty input gives empty output. */
  lemma {:induction false} NoEscUnchanged(s: string)
    requires Esc !in s
    ensures Flattened(s) == s
  {
    if s != [] {
      assert s == [s[0]] + s[1..];
      NoEscUnchanged(s[1..]);
    }
  }

  /** Each ESC grows the output by four characters; every other character is copied one for one. */
  lemma {:induction false} FlattenedLength(s: string)
    ensures |Flattened(s)| == |s| + 4 * multiset(s)[Esc]
  {
    if s != [] {
      FlattenedLength(s[1..]);
      assert s == [s[0]] + s[1..];
      assert multiset(s) == multiset{s[0]} + multiset(s[1..]);
    }
  }

  /** The output holds no ESC. */
  lemma {:induction false} NoEscLeft(s: string)
    ensures Esc !in Flattened(s)
  {
    if s != [] {
      NoEscLeft(s[1..]);
      assert Esc !in Piece(s[0]);
    }
  }

  /** So a second pass changes nothing. */
  lemma Idempotent(s: string)
    ensures Flattened(Flattened(s)) == Flattened(s)
  {
    NoEscLeft(s);
    NoEscUnchanged(Flattened(s));
  }

  /**
   * Character by character: the output is the pieces of the input's
   * characters, one after the other, and ESC shows up as `{ESC}` wherever it
   * occurs.
   */
  lemma {:induction false} Substitution(a: string, b: string)
    ensures Flattened(a + [Esc] + b) == Flattened(a) + "{ESC}" + Flattened(b)
  {
    FlattenedAppend(a + [Esc], b);
    FlattenedAppend(a, [Esc]);
    assert Flattened([Esc]) == EscMarker by {
      assert [Esc][1..] == [];
    }
  }
}
