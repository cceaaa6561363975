/** The evolve and neighbour tests of the suites, stated over the model. */
module EvolveExamples {
  import opened Cells
  import opened Rules
  import opened Neighborhood
  import opened Scenarios
  import FunctionalLife
  import BoundedLife
  import EngineLife

  /** The glider of the engine's integration test: `evolve` of
      src/engine/life.rs steps each 5 x 5 phase to the next and keeps the
      recorded size. */
  lemma EngineGlider1()
    ensures EngineLife.Evolve(EngineLife.Board(Glider1, 5, 5)) == EngineLife.Board(Glider2, 5, 5)
  {
    GliderStep1();
    EngineStep(Glider1, Glider2);
  }

  lemma EngineGlider2()
    ensures EngineLife.Evolve(EngineLife.Board(Glider2, 5, 5)) == EngineLife.Board(Glider3, 5, 5)
  {
    GliderStep2();
    EngineStep(Glider2, Glider3);
  }

  lemma EngineGlider3()
    ensures EngineLife.Evolve(EngineLife.Board(Glider3, 5, 5)) == EngineLife.Board(Glider4, 5, 5)
  {
    GliderStep3();
    EngineStep(Glider3, Glider4);
  }

  /** A step of the engine is a step of the functional variant on the cells,
      with the size kept. */
  lemma EngineStep(cells: set<Cell>, next: set<Cell>)
    requires FunctionalLife.Evolve(cells) == next
    ensures EngineLife.Evolve(EngineLife.Board(cells, 5, 5)) == EngineLife.Board(next, 5, 5)
  {
    BoundedLife.CandidateEquivalence(cells);
  }

  /** With a known live-neighbour count, the next generation decides `d` by
      the rule. */
  lemma Decide(board: set<Cell>, d: Cell, n: nat)
    requires Count8(board, d) == n
    ensures d in FunctionalLife.Evolve(board) <==> EvaluateCell(d in board, n)
  {
    Count8IsLiveCount(board, d);
    FunctionalLife.EvolveMeaning(board, d);
  }

  /** The boards of the evolve tests, as (row, col) sets. */
  const StayBoard: set<Cell> :=
    {Cell(0, 0), Cell(0, 4), Cell(0, 5), Cell(0, 6), Cell(1, 1), Cell(1, 5), Cell(2, 2)}
  const DieBoard: set<Cell> :=
    {Cell(0, 0), Cell(0, 4), Cell(0, 5), Cell(0, 6), Cell(1, 1), Cell(1, 5), Cell(1, 6), Cell(2, 3)}
  const BornBoard: set<Cell> := {Cell(0, 4), Cell(0, 5), Cell(0, 6)}

  /** A live cell with two live neighbours stays alive. */
  lemma StayAliveWithTwo()
    ensures Cell(1, 1) in StayBoard && Cell(1, 1) in FunctionalLife.Evolve(StayBoard)
  {
    Decide(StayBoard, Cell(1, 1), 2);
  }

  /** A live cell with three live neighbours stays alive. */
  lemma StayAliveWithThree()
    ensures Cell(1, 5) in StayBoard && Cell(1, 5) in FunctionalLife.Evolve(StayBoard)
  {
    Decide(StayBoard, Cell(1, 5), 3);
  }

  /** Live cells with no, one and four live neighbours die. */
  lemma CellsDie()
    ensures Cell(2, 3) in DieBoard && Cell(2, 3) !in FunctionalLife.Evolve(DieBoard)
    ensures Cell(1, 1) in DieBoard && Cell(1, 1) !in FunctionalLife.Evolve(DieBoard)
    ensures Cell(1, 5) in DieBoard && Cell(1, 5) !in FunctionalLife.Evolve(DieBoard)
  {
    Decide(DieBoard, Cell(2, 3), 0);
    Decide(DieBoard, Cell(1, 1), 1);
    Decide(DieBoard, Cell(1, 5), 4);
  }

  /** A dead cell with three live neighbours is born. */
  lemma CellIsBorn()
    ensures Cell(1, 5) !in BornBoard && Cell(1, 5) in FunctionalLife.Evolve(BornBoard)
  {
    Decide(BornBoard, Cell(1, 5), 3);
  }

  /** The 3 x 3 block of the neighbour tests. */
  const Block: set<Cell> :=
    {Cell(2, 1), Cell(2, 2), Cell(2, 3), Cell(3, 1), Cell(3, 2), Cell(3, 3), Cell(4, 1), Cell(4, 2), Cell(4, 3)}

  /** The centre of the block has all eight neighbours alive, and they are
      the eight cells around it. */
  lemma BlockCentre()
    ensures LivingNeighbors(Cell(3, 2), Block)
         == {Cell(2, 1), Cell(2, 2), Cell(2, 3), Cell(3, 1), Cell(3, 3), Cell(4, 1), Cell(4, 2), Cell(4, 3)}
    ensures LiveCount(Block, Cell(3, 2)) == 8
  {
    FullNeighborhood(Block, Cell(3, 2));
  }

  /** A cell alone has no live neighbour. */
  lemma LoneCell()
    ensures LivingNeighbors(Cell(3, 2), {Cell(3, 2)}) == {}
  {
  }

  /** The eight neighbours of (2, 3). */
  lemma NeighborsEnumerated()
    ensures Neighbors(Cell(2, 3))
         == {Cell(1, 2), Cell(1, 3), Cell(1, 4), Cell(2, 2), Cell(2, 4), Cell(3, 2), Cell(3, 3), Cell(3, 4)}
  {
  }

  /** A horizontal blinker on row 0, as read from the one-line grid
      `"* * *"` (height 1, width 3). */
  const Blinker: set<Cell> := {Cell(0, 0), Cell(0, 1), Cell(0, 2)}

  /** Evolution of life.rs is not clipped to the recorded dimensions: the
      blinker gives birth above row 0, at row -1, as well as below it. */
  lemma NoClipping()
    ensures Cell(-1, 1) in BoundedLife.EvolveCells(Blinker)
    ensures Cell(1, 1) in BoundedLife.EvolveCells(Blinker)
  {
    BornAbove();
    BornBelow();
    BoundedLife.CandidateEquivalence(Blinker);
  }

  lemma BornAbove()
    ensures Cell(-1, 1) in FunctionalLife.Evolve(Blinker)
  {
    Decide(Blinker, Cell(-1, 1), 3);
  }

  lemma BornBelow()
    ensures Cell(1, 1) in FunctionalLife.Evolve(Blinker)
  {
    Decide(Blinker, Cell(1, 1), 3);
  }
}
