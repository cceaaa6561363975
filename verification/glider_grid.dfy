/** The first glider phase read from its test text: the hand-written set
    `Scenarios.Glider1` is exactly what the unbounded reader makes of the
    grid in the glider test of src/life_functional.rs. */
module GliderGrid {
  import opened Text
  import opened Grid
  import opened Cells
  import FunctionalLife
  import Scenarios
  import opened GridExamples

  const EmptyRow: string := ". . . . ."
  const RowOne: string := ". * . * ."
  const RowTwo: string := ". . * * ."
  const RowThree: string := ". . * . ."

  /** Rows 2 to 4 of the grid, each with its 16-space indentation. */
  const Tail: string :=
    Indent16 + RowTwo + "\n" + Indent16 + RowThree + "\n" + Indent16 + EmptyRow

  /** Rows 1 to 4. */
  const Rows: string := Indent16 + RowOne + "\n" + Tail

  /** The raw string of the test: it opens on a blank line, every row is
      indented by sixteen spaces, and it closes on a line of twelve. */
  const GliderText: string :=
    "\n" + Indent16 + EmptyRow + "\n" + Rows + "\n" + Indent12

  /** A row of tokens without a newline or outer whitespace, after an
      indentation, splits into the same tokens as the bare row. */
  lemma IndentedTokens(m: string, row: string)
    requires AllWhitespace(m)
    requires row != [] && !IsWhitespace(row[0]) && !IsWhitespace(row[|row| - 1])
    ensures Tokens(m + row) == Tokens(row)
  {
    TrimPadded(m, row, "");
    assert m + row + "" == m + row;
    TrimPadded("", row, "");
    assert "" + row + "" == row;
  }

  /** A text made of a first piece, a newline and the rest splits into the
      first piece followed by the rest's pieces. */
  lemma SplitFirst(a: string, rest: string)
    requires '\n' !in a
    ensures Split(a + "\n" + rest, '\n') == [a] + Split(rest, '\n')
  {
    var parts := Split(rest, '\n');
    JoinSplit(rest, '\n');
    var all := [a] + parts;
    assert all[1..] == parts;
    assert Join(all, '\n') == a + "\n" + rest;
    SplitJoin(all, '\n');
  }

  lemma TailSplit()
    ensures Split(Tail, '\n') == [Indent16 + RowTwo, Indent16 + RowThree, Indent16 + EmptyRow]
  {
    var last := Indent16 + EmptyRow;
    var mid := Indent16 + RowThree + "\n" + last;
    assert Tail == Indent16 + RowTwo + "\n" + mid;
    SplitNoSep(last, '\n');
    SplitFirst(Indent16 + RowThree, last);
    SplitFirst(Indent16 + RowTwo, mid);
  }

  lemma GliderTrim()
    ensures Trim(GliderText) == EmptyRow + "\n" + Rows
  {
    var core := EmptyRow + "\n" + Rows;
    assert core[0] == '.';
    assert core[|core| - 1] == '.';
    assert AllWhitespace("\n" + Indent16) && AllWhitespace("\n" + Indent12);
    assert GliderText == ("\n" + Indent16) + core + ("\n" + Indent12);
    TrimPadded("\n" + Indent16, core, "\n" + Indent12);
  }

  lemma GliderLines()
    ensures Lines(GliderText) ==
      [EmptyRow, Indent16 + RowOne, Indent16 + RowTwo, Indent16 + RowThree, Indent16 + EmptyRow]
  {
    GliderTrim();
    TailSplit();
    SplitFirst(Indent16 + RowOne, Tail);
    SplitFirst(EmptyRow, Rows);
  }

  lemma EmptyRowTokens()
    ensures Tokens(EmptyRow) == [".", ".", ".", ".", "."]
  {
    assert Join([".", ".", ".", ".", "."], ' ') == EmptyRow;
    TrimmedSplit(EmptyRow, [".", ".", ".", ".", "."], ' ');
  }

  lemma RowOneTokens()
    ensures Tokens(RowOne) == [".", "*", ".", "*", "."]
  {
    assert Join([".", "*", ".", "*", "."], ' ') == RowOne;
    TrimmedSplit(RowOne, [".", "*", ".", "*", "."], ' ');
  }

  lemma RowTwoTokens()
    ensures Tokens(RowTwo) == [".", ".", "*", "*", "."]
  {
    assert Join([".", ".", "*", "*", "."], ' ') == RowTwo;
    TrimmedSplit(RowTwo, [".", ".", "*", "*", "."], ' ');
  }

  lemma RowThreeTokens()
    ensures Tokens(RowThree) == [".", ".", "*", ".", "."]
  {
    assert Join([".", ".", "*", ".", "."], ' ') == RowThree;
    TrimmedSplit(RowThree, [".", ".", "*", ".", "."], ' ');
  }

  /** Five lines, the last four indented by `m`: the tokens of each line
      are those of its bare row. */
  lemma IndentedMatrix(g: string, m: string, a: string, b: string, c: string, d: string, e: string)
    requires AllWhitespace(m)
    requires Lines(g) == [a, m + b, m + c, m + d, m + e]
    requires b != [] && !IsWhitespace(b[0]) && !IsWhitespace(b[|b| - 1])
    requires c != [] && !IsWhitespace(c[0]) && !IsWhitespace(c[|c| - 1])
    requires d != [] && !IsWhitespace(d[0]) && !IsWhitespace(d[|d| - 1])
    requires e != [] && !IsWhitespace(e[0]) && !IsWhitespace(e[|e| - 1])
    ensures |Lines(g)| == 5
    ensures Tokens(Lines(g)[0]) == Tokens(a) && Tokens(Lines(g)[1]) == Tokens(b)
    ensures Tokens(Lines(g)[2]) == Tokens(c) && Tokens(Lines(g)[3]) == Tokens(d)
    ensures Tokens(Lines(g)[4]) == Tokens(e)
  {
    IndentedTokens(m, b);
    IndentedTokens(m, c);
    IndentedTokens(m, d);
    IndentedTokens(m, e);
  }

  /** The token matrix of the glider text. */
  lemma GliderTokens()
    ensures |Lines(GliderText)| == 5
    ensures Tokens(Lines(GliderText)[0]) == [".", ".", ".", ".", "."]
    ensures Tokens(Lines(GliderText)[1]) == [".", "*", ".", "*", "."]
    ensures Tokens(Lines(GliderText)[2]) == [".", ".", "*", "*", "."]
    ensures Tokens(Lines(GliderText)[3]) == [".", ".", "*", ".", "."]
    ensures Tokens(Lines(GliderText)[4]) == [".", ".", ".", ".", "."]
  {
    GliderLines();
    assert AllWhitespace(Indent16);
    IndentedMatrix(GliderText, Indent16, EmptyRow, RowOne, RowTwo, RowThree, EmptyRow);
    EmptyRowTokens();
    RowOneTokens();
    RowTwoTokens();
    RowThreeTokens();
  }

  /** The token `*` sits in the first glider phase exactly where the set
      `Scenarios.Glider1` has a cell. */
  lemma GliderMarks(g: string, y: int, x: int)
    requires |Lines(g)| == 5
    requires Tokens(Lines(g)[0]) == [".", ".", ".", ".", "."]
    requires Tokens(Lines(g)[1]) == [".", "*", ".", "*", "."]
    requires Tokens(Lines(g)[2]) == [".", ".", "*", "*", "."]
    requires Tokens(Lines(g)[3]) == [".", ".", "*", ".", "."]
    requires Tokens(Lines(g)[4]) == [".", ".", ".", ".", "."]
    ensures LiveAt(g, y, x) <==> Cell(y, x) in Scenarios.Glider1
  {
    assert "."[0] != LiveToken[0];
  }

  /** The first glider phase of the test, read from its text, is the set
      `Scenarios.Glider1` that the glider proofs start from. */
  lemma GliderFromText()
    ensures FunctionalLife.FromGrid(GliderText) == Scenarios.Glider1
  {
    GliderTokens();
    var r := FunctionalLife.FromGrid(GliderText);
    forall c: Cell ensures c in r <==> c in Scenarios.Glider1 {
      GliderMarks(GliderText, c.row, c.col);
    }
  }
}
