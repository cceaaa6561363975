/** The evolution engine of src/engine/life.rs. It is written against a
    board offering `Board::new(cells, height, width)`, `from_size`,
    `contains`, `height()` and `width()`; that board is modelled here as a
    record of live cells and recorded dimensions. */
module EngineLife {
  import opened Cells
  import opened Rules
  import opened Neighborhood
  import opened Grid
  import opened Results
  import BoundedLife

  datatype Board = Board(cells: set<Cell>, height: nat, width: nat) {
    /** `contains`: membership in the live-cell set. */
    predicate Contains(c: Cell)
    {
      c in cells
    }
  }

  /** `Board::from_size`: a board of the given size without live cells. */
  function FromSize(height: nat, width: nat): (b: Board)
    ensures b.height == height && b.width == width
    ensures forall c :: !b.Contains(c)
  {
    Board({}, height, width)
  }

  /** `evolve`: the candidates are the live cells and their neighbours, the
      rule decides each candidate, and height and width are copied. For every
      cell of the plane, it is alive next exactly when the rule holds of its
      current state and live-neighbour count, and only live cells and their
      neighbours can be alive next. */
  function Evolve(board: Board): (next: Board)
    ensures next.height == board.height && next.width == board.width
    ensures forall d :: next.Contains(d) <==> EvaluateCell(board.Contains(d), LiveCount(board.cells, d))
    ensures forall d :: next.Contains(d) ==> board.Contains(d) || d in Halo(board.cells)
  {
    var cells := BoundedLife.EvolveCells(board.cells);
    assert forall d :: d in cells <==> EvaluateCell(d in board.cells, LiveCount(board.cells, d)) by {
      forall d ensures d in cells <==> EvaluateCell(d in board.cells, LiveCount(board.cells, d)) {
        BoundedLife.EvolveCellsMeaning(board.cells, d);
      }
    }
    Board(cells, board.height, board.width)
  }

  /** `neighbors(board, cell)`: the number of neighbours the board
      `contains`, between 0 and 8. */
  method Neighbors(board: Board, cell: Cell) returns (n: nat)
    ensures n == |set d | d in board.cells && IsNeighbor(cell, d)|
    ensures n <= 8
  {
    n := CountLiveNeighbors(board.cells, cell);
    assert LivingNeighbors(cell, board.cells) == set d | d in board.cells && IsNeighbor(cell, d);
  }

  /** A freshly sized board stays empty: nothing is ever born from
      nothing. */
  lemma EvolveFromSize(height: nat, width: nat)
    ensures Evolve(FromSize(height, width)) == FromSize(height, width)
  {
    var next := Evolve(FromSize(height, width));
    forall d ensures !next.Contains(d) {
      NoNeighborsMeansDead(false);
      assert LivingNeighbors(d, {}) == {};
    }
  }

  /** The test helper `from_grid` of src/engine/life.rs, the same reader as
      the one of life.rs: the empty text is refused, otherwise the board has
      the grid's height and width and holds exactly the cells marked `*`. */
  method FromGrid(grid: string) returns (r: Result<Board>)
    ensures r.Err? <==> grid == ""
    ensures r.Ok? ==> r.value.height == Height(grid) && r.value.width == Width(grid)
    ensures r.Ok? ==> forall c :: r.value.Contains(c) <==> LiveAt(grid, c.row, c.col)
  {
    var read := BoundedLife.FromGrid(grid);
    match read {
      case Err(e) => r := Err(e);
      case Ok(b) => r := Ok(Board(b.cells, b.height, b.width));
    }
  }
}
