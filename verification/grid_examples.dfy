/** The parser examples of the test suites, stated over the grid reading
    shared by all `from_grid` helpers and `Board::new`. */
module GridExamples {
  import opened Text
  import opened Grid
  import opened Cells
  import FunctionalLife
  import EngineBoard

  /** A text that is already trimmed and is the join of separator-free
      pieces is read back as exactly those pieces. */
  lemma TrimmedSplit(s: string, parts: seq<string>, sep: char)
    requires |parts| >= 1 && s == Join(parts, sep)
    requires forall k :: 0 <= k < |parts| ==> sep !in parts[k]
    requires s != [] ==> !IsWhitespace(s[0]) && !IsWhitespace(s[|s| - 1])
    ensures Split(Trim(s), sep) == parts
  {
    TrimPadded([], s, []);
    assert [] + s + [] == s;
    SplitJoin(parts, sep);
  }

  /** Token `x` of row `y` of a token matrix is the live marker. */
  predicate MarkedAt(rows: seq<seq<string>>, y: int, x: int)
  {
    0 <= y < |rows| && 0 <= x < |rows[y]| && rows[y][x] == LiveToken
  }

  /** On a two-line grid, `LiveAt` reads the two lines' tokens, the height
      is two and the width is the token count of the second line. */
  lemma TwoLines(g: string, a: string, b: string)
    requires Lines(g) == [a, b]
    ensures forall y, x :: LiveAt(g, y, x) <==> MarkedAt([Tokens(a), Tokens(b)], y, x)
    ensures Height(g) == 2 && Width(g) == |Tokens(b)|
  {
    var rows := [Tokens(a), Tokens(b)];
    forall y, x ensures LiveAt(g, y, x) <==> MarkedAt(rows, y, x) {
      if y == 0 {
        assert Lines(g)[y] == a && rows[y] == Tokens(a);
      } else if y == 1 {
        assert Lines(g)[y] == b && rows[y] == Tokens(b);
      }
    }
  }

  lemma DotsAndStarTokens()
    ensures Tokens(". * .") == [".", "*", "."]
    ensures Tokens(". . .") == [".", ".", "."]
  {
    assert Join([".", "*", "."], ' ') == ". * .";
    TrimmedSplit(". * .", [".", "*", "."], ' ');
    assert Join([".", ".", "."], ' ') == ". . .";
    TrimmedSplit(". . .", [".", ".", "."], ' ');
  }

  /** A set holding exactly the marked cells of `. * .` over `. . .` is the
      single cell (0, 1). */
  lemma SingleCellRows(r: set<Cell>, rows: seq<seq<string>>)
    requires rows == [[".", "*", "."], [".", ".", "."]]
    requires forall c :: c in r <==> MarkedAt(rows, c.row, c.col)
    ensures r == {Cell(0, 1)}
  {
    assert MarkedAt(rows, 0, 1);
    assert "."[0] != LiveToken[0];
    forall c | c in r ensures c == Cell(0, 1) {
      assert MarkedAt(rows, c.row, c.col);
    }
  }

  /** A set holding exactly the marked cells of `. . .` over `. . .` is
      empty. */
  lemma NoCellRows(r: set<Cell>, rows: seq<seq<string>>)
    requires rows == [[".", ".", "."], [".", ".", "."]]
    requires forall c :: c in r <==> MarkedAt(rows, c.row, c.col)
    ensures r == {}
  {
    assert "."[0] != LiveToken[0];
    forall c | c in r ensures false {
    }
  }

  lemma SingleCellOf(g: string, a: string, b: string, r: set<Cell>)
    requires Lines(g) == [a, b]
    requires Tokens(a) == [".", "*", "."] && Tokens(b) == [".", ".", "."]
    requires forall c :: c in r <==> LiveAt(g, c.row, c.col)
    ensures r == {Cell(0, 1)}
    ensures Height(g) == 2 && Width(g) == 3
  {
    var rows := [Tokens(a), Tokens(b)];
    TwoLines(g, a, b);
    forall c ensures c in r <==> MarkedAt(rows, c.row, c.col) {
      assert LiveAt(g, c.row, c.col) <==> MarkedAt(rows, c.row, c.col);
    }
    SingleCellRows(r, rows);
  }

  lemma NoCellOf(g: string, a: string, r: set<Cell>)
    requires Lines(g) == [a, a]
    requires Tokens(a) == [".", ".", "."]
    requires forall c :: c in r <==> LiveAt(g, c.row, c.col)
    ensures r == {}
    ensures Height(g) == 2 && Width(g) == 3
  {
    var rows := [Tokens(a), Tokens(a)];
    TwoLines(g, a, a);
    forall c ensures c in r <==> MarkedAt(rows, c.row, c.col) {
      assert LiveAt(g, c.row, c.col) <==> MarkedAt(rows, c.row, c.col);
    }
    NoCellRows(r, rows);
  }

  /** `". * .\n. . ."` reads as the single live cell (0, 1) on a board of
      height 2 and width 3. */
  lemma SingleCell()
    ensures FunctionalLife.FromGrid(". * .\n. . .") == {Cell(0, 1)}
    ensures Height(". * .\n. . .") == 2 && Width(". * .\n. . .") == 3
  {
    assert Join([". * .", ". . ."], '\n') == ". * .\n. . .";
    TrimmedSplit(". * .\n. . .", [". * .", ". . ."], '\n');
    DotsAndStarTokens();
    SingleCellOf(". * .\n. . .", ". * .", ". . .", FunctionalLife.FromGrid(". * .\n. . ."));
  }

  /** `". . .\n. . ."` reads as no live cell on a board of height 2 and
      width 3. */
  lemma AllDead()
    ensures FunctionalLife.FromGrid(". . .\n. . .") == {}
    ensures Height(". . .\n. . .") == 2 && Width(". . .\n. . .") == 3
  {
    assert Join([". . .", ". . ."], '\n') == ". . .\n. . .";
    TrimmedSplit(". . .\n. . .", [". . .", ". . ."], '\n');
    DotsAndStarTokens();
    NoCellOf(". . .\n. . .", ". . .", FunctionalLife.FromGrid(". . .\n. . ."));
  }

  /** The empty text has one empty line holding one empty token, so
      `from_grid` of life_functional.rs reads it as the empty board. */
  lemma EmptyText()
    ensures Lines("") == [""] && Tokens("") == [""]
    ensures FunctionalLife.FromGrid("") == {}
  {
    assert Trim("") == "";
  }

  /** Rows are not checked to agree in length: in `"* *\n*"` the width is
      the one token of the last line, yet the first line marks a live cell
      at column 1, outside that width. */
  lemma RaggedRows()
    ensures Height("* *\n*") == 2 && Width("* *\n*") == 1
    ensures LiveAt("* *\n*", 0, 1)
  {
    assert Join(["* *", "*"], '\n') == "* *\n*";
    TrimmedSplit("* *\n*", ["* *", "*"], '\n');
    assert Join(["*", "*"], ' ') == "* *";
    TrimmedSplit("* *", ["*", "*"], ' ');
    assert Join(["*"], ' ') == "*";
    TrimmedSplit("*", ["*"], ' ');
    TwoLines("* *\n*", "* *", "*");
    assert MarkedAt([Tokens("* *"), Tokens("*")], 0, 1);
  }

  /** `Board::new` on `". * .\n. . ."`: any cell vector meeting its
      contract (sorted, holding exactly the marked positions) is `[(1, 0)]`,
      the column-first pair of the single live cell. */
  lemma SingleCellVector(cells: seq<EngineBoard.Position>)
    requires EngineBoard.Sorted(cells)
    requires forall p :: p in cells <==> LiveAt(". * .\n. . .", p.1, p.0)
    ensures cells == [(1, 0)]
  {
    SingleCell();
    VectorOf(". * .\n. . .", Cell(0, 1), cells);
  }

  /** On a grid whose only live cell is `c`, a sorted vector holding
      exactly the marked `(x, y)` pairs is `[(c.col, c.row)]`. */
  lemma VectorOf(g: string, c: Cell, cells: seq<EngineBoard.Position>)
    requires FunctionalLife.FromGrid(g) == {c} && c.row >= 0 && c.col >= 0
    requires EngineBoard.Sorted(cells)
    requires forall p :: p in cells <==> LiveAt(g, p.1, p.0)
    ensures cells == [(c.col, c.row)]
  {
    var q: EngineBoard.Position := (c.col, c.row);
    assert forall p: EngineBoard.Position :: LiveAt(g, p.1, p.0) <==> Cell(p.1, p.0) in FunctionalLife.FromGrid(g);
    assert q in cells;
    forall i | 0 <= i < |cells| ensures cells[i] == q {
      assert cells[i] in cells;
    }
    OnlyElement(cells, q);
  }

  /** A strictly sorted vector all of whose entries equal `q`, and which
      holds `q`, is `[q]`. */
  lemma OnlyElement(cells: seq<EngineBoard.Position>, q: EngineBoard.Position)
    requires EngineBoard.Sorted(cells) && q in cells
    requires forall i :: 0 <= i < |cells| ==> cells[i] == q
    ensures cells == [q]
  {
    assert |cells| > 1 ==> EngineBoard.RowMajorLess(cells[0], cells[1]);
  }

  /** On a three-line grid, `LiveAt` reads the three lines' tokens, the
      height is three and the width is the token count of the third line. */
  lemma ThreeLines(g: string, a: string, b: string, c: string)
    requires Lines(g) == [a, b, c]
    ensures forall y, x :: LiveAt(g, y, x) <==> MarkedAt([Tokens(a), Tokens(b), Tokens(c)], y, x)
    ensures Height(g) == 3 && Width(g) == |Tokens(c)|
  {
    var rows := [Tokens(a), Tokens(b), Tokens(c)];
    forall y, x ensures LiveAt(g, y, x) <==> MarkedAt(rows, y, x) {
      if y == 0 {
        assert Lines(g)[y] == a && rows[y] == Tokens(a);
      } else if y == 1 {
        assert Lines(g)[y] == b && rows[y] == Tokens(b);
      } else if y == 2 {
        assert Lines(g)[y] == c && rows[y] == Tokens(c);
      }
    }
  }

  /** The padded grid of the whitespace tests,
      `"      . .    \n     . *     \n     . .   "`, written as its parts:
      three padded lines joined by newlines, with outer padding. */
  const PaddedLine0: string := ". ." + "    "
  const PaddedLine1: string := "     " + ". *" + "     "
  const PaddedLine2: string := "     " + ". ."
  const PaddedCore: string := PaddedLine0 + "\n" + PaddedLine1 + "\n" + PaddedLine2
  const Padded: string := "      " + PaddedCore + "   "

  lemma PaddedTrim()
    ensures Trim(Padded) == PaddedCore
  {
    TrimPadded("      ", PaddedCore, "   ");
  }

  lemma PaddedSplit()
    ensures Split(PaddedCore, '\n') == [PaddedLine0, PaddedLine1, PaddedLine2]
  {
    var parts := [PaddedLine0, PaddedLine1, PaddedLine2];
    var tail := [PaddedLine1, PaddedLine2];
    assert parts[1..] == tail && tail[1..] == [PaddedLine2];
    assert Join(tail, '\n') == PaddedLine1 + "\n" + PaddedLine2;
    assert PaddedCore == PaddedLine0 + "\n" + (PaddedLine1 + "\n" + PaddedLine2);
    assert Join(parts, '\n') == PaddedCore;
    SplitJoin(parts, '\n');
  }

  lemma PaddedLines()
    ensures Lines(Padded) == [PaddedLine0, PaddedLine1, PaddedLine2]
  {
    PaddedTrim();
    PaddedSplit();
  }

  /** A line `a + ". x" + b` with whitespace padding reads as the two tokens
      `.` and `x`. */
  lemma PaddedPair(a: string, x: char, b: string)
    requires AllWhitespace(a) && AllWhitespace(b) && !IsWhitespace(x)
    ensures Tokens(a + ['.', ' ', x] + b) == [".", [x]]
  {
    TrimPadded(a, ['.', ' ', x], b);
    assert Join([".", [x]], ' ') == ['.', ' ', x];
    SplitJoin([".", [x]], ' ');
  }

  lemma PaddedTokens()
    ensures Tokens(PaddedLine0) == [".", "."]
    ensures Tokens(PaddedLine1) == [".", "*"]
    ensures Tokens(PaddedLine2) == [".", "."]
  {
    PaddedPair("", '.', "    ");
    assert PaddedLine0 == "" + ['.', ' ', '.'] + "    ";
    PaddedPair("     ", '*', "     ");
    assert PaddedLine1 == "     " + ['.', ' ', '*'] + "     ";
    PaddedPair("     ", '.', "");
    assert PaddedLine2 == "     " + ['.', ' ', '.'] + "";
  }

  /** A set holding exactly the marked cells of the padded grid's token
      matrix is the single cell (1, 1). */
  lemma PaddedRows(r: set<Cell>, rows: seq<seq<string>>)
    requires rows == [[".", "."], [".", "*"], [".", "."]]
    requires forall c :: c in r <==> MarkedAt(rows, c.row, c.col)
    ensures r == {Cell(1, 1)}
  {
    assert MarkedAt(rows, 1, 1);
    assert "."[0] != LiveToken[0];
    forall c | c in r ensures c == Cell(1, 1) {
      assert MarkedAt(rows, c.row, c.col);
    }
  }

  lemma PaddedOf(g: string, a: string, b: string, c: string, r: set<Cell>)
    requires Lines(g) == [a, b, c]
    requires Tokens(a) == [".", "."] && Tokens(b) == [".", "*"] && Tokens(c) == [".", "."]
    requires forall d :: d in r <==> LiveAt(g, d.row, d.col)
    ensures r == {Cell(1, 1)}
    ensures Height(g) == 3 && Width(g) == 2
  {
    var rows := [Tokens(a), Tokens(b), Tokens(c)];
    ThreeLines(g, a, b, c);
    forall d ensures d in r <==> MarkedAt(rows, d.row, d.col) {
      assert LiveAt(g, d.row, d.col) <==> MarkedAt(rows, d.row, d.col);
    }
    PaddedRows(r, rows);
  }

  /** Leading and trailing spaces are ignored: the padded grid reads as the
      single live cell (1, 1) on a board of height 3 and width 2. */
  lemma PaddedGrid()
    ensures FunctionalLife.FromGrid(Padded) == {Cell(1, 1)}
    ensures Height(Padded) == 3 && Width(Padded) == 2
  {
    PaddedLines();
    PaddedTokens();
    PaddedOf(Padded, PaddedLine0, PaddedLine1, PaddedLine2, FunctionalLife.FromGrid(Padded));
  }

  /** `Board::new` on the padded grid: any cell vector meeting its contract
      is `[(1, 1)]`. */
  lemma PaddedVector(cells: seq<EngineBoard.Position>)
    requires EngineBoard.Sorted(cells)
    requires forall p :: p in cells <==> LiveAt(Padded, p.1, p.0)
    ensures cells == [(1, 1)]
  {
    PaddedGrid();
    VectorOf(Padded, Cell(1, 1), cells);
  }

  /** Indentation runs of the raw-string grids in the test suites. */
  const Indent8: string := "        "
  const Indent12: string := Indent8 + "    "
  const Indent16: string := Indent8 + Indent8
  const Indent24: string := Indent16 + Indent8

  /** A row without a newline or outer whitespace, padded by whitespace
      (blank lines included), is read as that single line. */
  lemma OneRowOf(p: string, row: string, q: string)
    requires AllWhitespace(p) && AllWhitespace(q) && '\n' !in row
    requires row != [] && !IsWhitespace(row[0]) && !IsWhitespace(row[|row| - 1])
    ensures Lines(p + row + q) == [row]
  {
    TrimPadded(p, row, q);
    SplitNoSep(row, '\n');
  }

  /** Two rows, the second indented by `m`, padded by whitespace, are read
      as two lines, and the second line's tokens ignore the indentation. */
  lemma TwoRowsOf(p: string, a: string, m: string, b: string, q: string)
    requires AllWhitespace(p) && AllWhitespace(m) && AllWhitespace(q)
    requires '\n' !in a && '\n' !in m && '\n' !in b
    requires a != [] && !IsWhitespace(a[0])
    requires b != [] && !IsWhitespace(b[0]) && !IsWhitespace(b[|b| - 1])
    ensures Lines(p + (a + "\n" + m + b) + q) == [a, m + b]
    ensures Tokens(m + b) == Tokens(b)
  {
    var core := a + "\n" + m + b;
    assert core[0] == a[0] && core[|core| - 1] == b[|b| - 1];
    TrimPadded(p, core, q);
    assert Join([a, m + b], '\n') == core;
    assert '\n' !in m + b;
    SplitJoin([a, m + b], '\n');
    TrimPadded(m, b, "");
    assert m + b + "" == m + b;
    TrimPadded("", b, "");
    assert "" + b + "" == b;
  }

  lemma RowTokens()
    ensures Tokens(". . . .") == [".", ".", ".", "."]
    ensures Tokens("* * *") == ["*", "*", "*"]
  {
    assert Join([".", ".", ".", "."], ' ') == ". . . .";
    TrimmedSplit(". . . .", [".", ".", ".", "."], ' ');
    assert Join(["*", "*", "*"], ' ') == "* * *";
    TrimmedSplit("* * *", ["*", "*", "*"], ' ');
  }

  /** The grid of the "leading and trailing empty lines are ignored" tests:
      a raw string that opens and closes on a blank indented line. */
  const EmptyLinesGrid: string := "\n" + Indent24 + ". . . ." + "\n" + Indent24

  lemma EmptyLinesRow()
    ensures Lines(EmptyLinesGrid) == [". . . ."]
  {
    var pad := "\n" + Indent24;
    assert AllWhitespace(pad);
    assert EmptyLinesGrid == pad + ". . . ." + pad;
    OneRowOf(pad, ". . . .", pad);
  }

  /** Leading and trailing empty lines are ignored: the grid has height 1
      and width 4, with no live cell. */
  lemma EmptyLinesIgnored()
    ensures Height(EmptyLinesGrid) == 1 && Width(EmptyLinesGrid) == 4
    ensures forall y, x :: !LiveAt(EmptyLinesGrid, y, x)
  {
    EmptyLinesRow();
    RowTokens();
    assert "."[0] != LiveToken[0];
  }

  /** On two lines of three live tokens each, the live cells are exactly
      the 2 x 3 rectangle, the height is 2 and the width is 3. */
  lemma StarRows(g: string, a: string, b: string)
    requires Lines(g) == [a, b]
    requires Tokens(a) == ["*", "*", "*"] && Tokens(b) == ["*", "*", "*"]
    ensures forall y, x :: LiveAt(g, y, x) <==> 0 <= y <= 1 && 0 <= x <= 2
    ensures Height(g) == 2 && Width(g) == 3
  {
    TwoLines(g, a, b);
  }

  /** The all-cells grid of `src/life.rs`: both rows indented by twelve
      spaces, the closing line by eight. */
  const AllCellsGrid: string :=
    "\n" + Indent12 + "* * *" + "\n" + Indent12 + "* * *" + "\n" + Indent8

  /** The all-cells grid of `src/life_functional.rs`: rows indented by
      sixteen spaces, the closing line by twelve. */
  const AllCellsDeeper: string :=
    "\n" + Indent16 + "* * *" + "\n" + Indent16 + "* * *" + "\n" + Indent12

  lemma AllCellsRows()
    ensures Lines(AllCellsGrid) == ["* * *", Indent12 + "* * *"]
    ensures Tokens(Indent12 + "* * *") == Tokens("* * *")
  {
    var p := "\n" + Indent12;
    var q := "\n" + Indent8;
    assert AllWhitespace(p) && AllWhitespace(Indent12) && AllWhitespace(q);
    assert AllCellsGrid == p + ("* * *" + "\n" + Indent12 + "* * *") + q;
    TwoRowsOf(p, "* * *", Indent12, "* * *", q);
  }

  lemma AllCellsDeeperRows()
    ensures Lines(AllCellsDeeper) == ["* * *", Indent16 + "* * *"]
    ensures Tokens(Indent16 + "* * *") == Tokens("* * *")
  {
    var p := "\n" + Indent16;
    var q := "\n" + Indent12;
    assert AllWhitespace(p) && AllWhitespace(Indent16) && AllWhitespace(q);
    assert AllCellsDeeper == p + ("* * *" + "\n" + Indent16 + "* * *") + q;
    TwoRowsOf(p, "* * *", Indent16, "* * *", q);
  }

  /** A grid with all cells: height 2, width 3, and the live cells are
      exactly rows 0..=1 by columns 0..=2. */
  lemma AllCells()
    ensures forall y, x :: LiveAt(AllCellsGrid, y, x) <==> 0 <= y <= 1 && 0 <= x <= 2
    ensures Height(AllCellsGrid) == 2 && Width(AllCellsGrid) == 3
  {
    AllCellsRows();
    RowTokens();
    StarRows(AllCellsGrid, "* * *", Indent12 + "* * *");
  }

  /** The unbounded reader on its all-cells grid yields exactly the cells
      of rows 0..=1 by columns 0..=2. */
  lemma AllCellsBoard()
    ensures forall c :: c in FunctionalLife.FromGrid(AllCellsDeeper) <==>
              0 <= c.row <= 1 && 0 <= c.col <= 2
  {
    AllCellsDeeperRows();
    RowTokens();
    StarRows(AllCellsDeeper, "* * *", Indent16 + "* * *");
  }
}
