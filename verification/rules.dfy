/** The survival/birth rule of Conway's Game of Life, applied to one cell. */
module Rules {

  /** `evaluate_cell`: whether a cell is alive in the next generation, given
      whether it is alive now and how many of its neighbours are alive. */
  predicate EvaluateCell(alive: bool, neighbors: nat)
  {
    if alive then neighbors == 2 || neighbors == 3 else neighbors == 3
  }

  /** The rule as the usual B3/S23 table: a live cell survives with 2 or 3
      live neighbours, a dead cell is born with exactly 3. */
  lemma EvaluateCellTable(alive: bool, n: nat)
    ensures alive ==> (EvaluateCell(alive, n) <==> n in {2, 3})
    ensures !alive ==> (EvaluateCell(alive, n) <==> n == 3)
  {
  }

  /** The kata's test table for n in 0..8: under-population, survival,
      over-crowding and birth. */
  lemma EvaluateCellTests()
    ensures forall n: nat :: n <= 1 ==> !EvaluateCell(true, n)
    ensures EvaluateCell(true, 2) && EvaluateCell(true, 3)
    ensures forall n: nat :: 4 <= n <= 8 ==> !EvaluateCell(true, n)
    ensures EvaluateCell(false, 3)
    ensures forall n: nat :: n <= 8 && n != 3 ==> !EvaluateCell(false, n)
  {
  }

  /** A cell with no live neighbours is dead in the next generation, whatever
      its current state. */
  lemma NoNeighborsMeansDead(alive: bool)
    ensures !EvaluateCell(alive, 0)
  {
  }
}
