/** The unbounded variant: a board is just the finite set of live cells, and
    the next generation is computed from the neighbours of live cells only. */
module FunctionalLife {
  import opened Cells
  import opened Rules
  import opened Neighborhood
  import opened Grid

  type Board = set<Cell>

  /** `evolve`: every neighbour of every live cell is a candidate
      (`flat_map(neighbors)`), and a candidate is kept when the rule accepts
      its current state and live-neighbour count. */
  function Evolve(board: Board): Board
  {
    set c, d | c in board && d in Neighbors(c)
                 && EvaluateCell(d in board, |LivingNeighbors(d, board)|) :: d
  }

  /** The meaning of one generation, for EVERY cell of the plane: a cell is
      alive next exactly when the rule holds of its current state and its
      live-neighbour count. Restricting the candidates to neighbours of live
      cells loses nothing, because a cell with no live neighbour is dead
      next. */
  lemma EvolveMeaning(board: Board, d: Cell)
    ensures d in Evolve(board) <==> EvaluateCell(d in board, LiveCount(board, d))
  {
    if EvaluateCell(d in board, LiveCount(board, d)) {
      NoNeighborsMeansDead(d in board);
      HaloIffLiveNeighbor(board, d);
      var c :| c in board && d in Neighbors(c);
    }
  }

  /** Survival: a live cell stays alive iff it has 2 or 3 live neighbours. */
  lemma Survival(board: Board, d: Cell)
    requires d in board
    ensures d in Evolve(board) <==> LiveCount(board, d) == 2 || LiveCount(board, d) == 3
  {
    EvolveMeaning(board, d);
  }

  /** Birth: a dead cell comes alive iff it has exactly 3 live neighbours. */
  lemma Birth(board: Board, d: Cell)
    requires d !in board
    ensures d in Evolve(board) <==> LiveCount(board, d) == 3
  {
    EvolveMeaning(board, d);
  }

  /** Locality: every cell alive in the next generation is adjacent to a cell
      alive now. In particular an isolated live cell dies. */
  lemma EvolveLocal(board: Board, d: Cell)
    requires d in Evolve(board)
    ensures exists c :: c in board && IsNeighbor(c, d)
  {
  }

  /** An isolated live cell (no live neighbour) is absent from the next
      generation. */
  lemma IsolatedCellDies(board: Board, d: Cell)
    requires d in board
    requires forall c :: c in board ==> !IsNeighbor(c, d)
    ensures d !in Evolve(board)
  {
    if d in Evolve(board) {
      EvolveLocal(board, d);
    }
  }

  /** The empty board is a fixed point. */
  lemma EvolveEmpty()
    ensures Evolve({}) == {}
  {
  }

  /** The live cells contributed by the tokens of one line, `tokens[i]`
      standing at column `x + i` of row `y`
      (`enumerate().filter(..).map(..)`). */
  function CellsOfTokens(tokens: seq<string>, y: int, x: int): (r: set<Cell>)
    ensures forall c :: c in r <==>
              c.row == y && x <= c.col < x + |tokens| && tokens[c.col - x] == LiveToken
  {
    if tokens == [] then {}
    else
      (if tokens[0] == LiveToken then {Cell(y, x)} else {}) + CellsOfTokens(tokens[1..], y, x + 1)
  }

  /** Token `c.col` of line `c.row - y` is the live marker. */
  predicate LiveIn(lines: seq<string>, y: int, c: Cell)
  {
    && y <= c.row < y + |lines|
    && 0 <= c.col < |Tokens(lines[c.row - y])|
    && Tokens(lines[c.row - y])[c.col] == LiveToken
  }

  /** The live cells of the lines, `lines[i]` standing at row `y + i`
      (`enumerate().flat_map(..)`). */
  function CellsOfLines(lines: seq<string>, y: int): (r: set<Cell>)
    ensures forall c :: c in r <==> LiveIn(lines, y, c)
  {
    if lines == [] then {}
    else
      var first := CellsOfTokens(Tokens(lines[0]), y, 0);
      var rest := CellsOfLines(lines[1..], y + 1);
      FirstLine(lines, y, first);
      OtherLines(lines, y, rest);
      first + rest
  }

  lemma FirstLine(lines: seq<string>, y: int, first: set<Cell>)
    requires lines != []
    requires forall c :: c in first <==>
               c.row == y && 0 <= c.col < |Tokens(lines[0])| && Tokens(lines[0])[c.col] == LiveToken
    ensures forall c :: c in first <==> c.row == y && LiveIn(lines, y, c)
  {
  }

  lemma OtherLines(lines: seq<string>, y: int, rest: set<Cell>)
    requires lines != []
    requires forall c :: c in rest <==> LiveIn(lines[1..], y + 1, c)
    ensures forall c :: c in rest <==> c.row != y && LiveIn(lines, y, c)
  {
    forall c ensures LiveIn(lines[1..], y + 1, c) <==> c.row != y && LiveIn(lines, y, c) {
      if y < c.row < y + |lines| {
        var i := c.row - y;
        var tail := lines[1..];
        assert tail[i - 1] == lines[i];
      }
    }
  }

  /** `from_grid` of life_functional.rs: the live cells are exactly the
      positions whose token is `*`. The empty text is accepted and gives the
      empty board. */
  function FromGrid(grid: string): (r: Board)
    ensures forall c :: c in r <==> LiveAt(grid, c.row, c.col)
  {
    var r := CellsOfLines(Lines(grid), 0);
    assert forall c :: LiveIn(Lines(grid), 0, c) <==> LiveAt(grid, c.row, c.col);
    r
  }
}
