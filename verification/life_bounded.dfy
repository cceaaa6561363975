/** The bounded variant of src/life.rs: a board carries its live cells
    together with the height and width derived from the grid it was parsed
    from. The dimensions are only recorded: evolution never clips to them. */
module BoundedLife {
  import opened Cells
  import opened Rules
  import opened Neighborhood
  import opened Grid
  import opened Results
  import FunctionalLife

  datatype Board = Board(cells: set<Cell>, height: nat, width: nat)

  /** The candidates of life.rs: every live cell together with all of its
      neighbours. */
  function Candidates(cells: set<Cell>): set<Cell>
  {
    cells + Halo(cells)
  }

  /** The next generation's cells as life.rs computes them: the candidates
      accepted by the rule. */
  function EvolveCells(cells: set<Cell>): set<Cell>
  {
    set d | d in Candidates(cells) && EvaluateCell(d in cells, LiveCount(cells, d))
  }

  /** The two candidate policies agree: adding the live cells themselves to
      the candidates (life.rs) changes nothing against using only the
      neighbours of live cells (life_functional.rs), because a live cell that
      is nobody's neighbour has no live neighbour and dies. */
  lemma {:induction false} CandidateEquivalence(cells: set<Cell>)
    ensures EvolveCells(cells) == FunctionalLife.Evolve(cells)
  {
    forall d
      ensures d in EvolveCells(cells) <==> d in FunctionalLife.Evolve(cells)
    {
      FunctionalLife.EvolveMeaning(cells, d);
      HaloIffLiveNeighbor(cells, d);
      NoNeighborsMeansDead(d in cells);
    }
  }

  /** The next generation of life.rs holds, for every cell of the plane,
      exactly the cells the rule accepts; nothing outside the live cells and
      their neighbours is ever alive. */
  lemma EvolveCellsMeaning(cells: set<Cell>, d: Cell)
    ensures d in EvolveCells(cells) <==> EvaluateCell(d in cells, LiveCount(cells, d))
    ensures d in EvolveCells(cells) ==> d in Candidates(cells)
  {
    CandidateEquivalence(cells);
    FunctionalLife.EvolveMeaning(cells, d);
  }

  /** `evolve` of life.rs: gathers the candidates, keeps those the rule
      accepts, and copies height and width unchanged. */
  method Evolve(board: Board) returns (next: Board)
    ensures next.height == board.height && next.width == board.width
    ensures next.cells == FunctionalLife.Evolve(board.cells)
    ensures forall d :: d in next.cells <==> EvaluateCell(d in board.cells, LiveCount(board.cells, d))
  {
    var candidates := GatherCandidates(board.cells);
    var cells := KeepSurvivors(board.cells, candidates);
    assert cells == EvolveCells(board.cells);
    CandidateEquivalence(board.cells);
    forall d ensures d in cells <==> EvaluateCell(d in board.cells, LiveCount(board.cells, d)) {
      EvolveCellsMeaning(board.cells, d);
    }
    next := Board(cells, board.height, board.width);
  }

  /** The first loop of `evolve`: each live cell is inserted into the
      candidate set, and so is every cell its neighbour visit reports. */
  method GatherCandidates(cells: set<Cell>) returns (candidates: set<Cell>)
    ensures candidates == Candidates(cells)
  {
    candidates := {};
    var todo := cells;
    while todo != {}
      invariant todo <= cells
      invariant candidates == Candidates(cells - todo)
      decreases todo
    {
      var cell :| cell in todo;
      var done := cells - todo;
      candidates := candidates + {cell};
      var visited := VisitNeighbors(cell);
      assert (set v | v in visited) == Neighbors(cell);
      candidates := candidates + (set v | v in visited);
      HaloInsert(done, cell);
      todo := todo - {cell};
      assert cells - todo == done + {cell};
    }
  }

  /** The filter of `evolve`: a candidate is kept when `evaluate_cell`
      accepts its current state and its `neighbors` count. */
  method KeepSurvivors(cells: set<Cell>, candidates: set<Cell>) returns (kept: set<Cell>)
    ensures forall d :: d in kept <==> d in candidates && EvaluateCell(d in cells, LiveCount(cells, d))
  {
    kept := {};
    var rest := candidates;
    while rest != {}
      invariant rest <= candidates
      invariant forall d :: d in kept <==>
                  d in candidates - rest && EvaluateCell(d in cells, LiveCount(cells, d))
      decreases rest
    {
      var cell :| cell in rest;
      var n := CountLiveNeighbors(cells, cell);
      if EvaluateCell(cell in cells, n) {
        kept := kept + {cell};
      }
      rest := rest - {cell};
    }
  }

  /** `from_grid` of life.rs: the empty text panics (the check is made on the
      text BEFORE trimming, so whitespace-only text is accepted); otherwise the
      height is the number of lines, the width is the token count of the
      last line, and the live cells are the positions holding `*`. */
  method FromGrid(grid: string) returns (r: Result<Board>)
    ensures r.Err? <==> grid == ""
    ensures r.Ok? ==> r.value.height == Height(grid) && r.value.width == Width(grid)
    ensures r.Ok? ==> forall c :: c in r.value.cells <==> LiveAt(grid, c.row, c.col)
    ensures r.Ok? ==> r.value.height >= 1 && r.value.width >= 1
    ensures r.Ok? ==> forall c :: c in r.value.cells ==> 0 <= c.row < r.value.height && 0 <= c.col
  {
    if grid == "" {
      return Err(EmptyGrid);
    }
    var cells: set<Cell> := {};
    var width: nat := 0;
    var height: nat := 0;
    var lines := Text.Split(Text.Trim(grid), '\n');
    var y := 0;
    while y < |lines|
      invariant 0 <= y <= |lines| && lines == Lines(grid)
      invariant height == y
      invariant y > 0 ==> width == |Tokens(lines[y - 1])|
      invariant forall c :: c in cells <==> c.row < y && LiveAt(grid, c.row, c.col)
    {
      height := y + 1;
      var tokens := Text.Split(Text.Trim(lines[y]), ' ');
      var x := 0;
      while x < |tokens|
        invariant 0 <= x <= |tokens| && tokens == Tokens(lines[y])
        invariant x > 0 ==> width == x
        invariant forall c :: c in cells <==>
                    (c.row < y && LiveAt(grid, c.row, c.col)) || (c.row == y && c.col < x && LiveAt(grid, c.row, c.col))
      {
        width := x + 1;
        if tokens[x] == LiveToken {
          cells := cells + {Cell(y, x)};
        }
        x := x + 1;
      }
      y := y + 1;
    }
    return Ok(Board(cells, height, width));
  }
}
