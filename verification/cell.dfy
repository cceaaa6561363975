/** The grid coordinate shared by every variant of the kata: a pair of signed
    integers compared by value. Coordinates are unbounded `int`s, so the
    neighbours of a cell on row or column 0 (value -1) are ordinary cells. */
module Cells {

  datatype Cell = Cell(row: int, col: int)

  /** `Cell::new`: builds the cell at the given row and column. */
  function New(row: int, col: int): (c: Cell)
    ensures c.row == row
    ensures c.col == col
  {
    Cell(row, col)
  }

  /** Equality of cells is structural: two constructed cells are equal exactly
      when both coordinates agree. */
  lemma NewInjective(a: int, b: int, c: int, d: int)
    ensures New(a, b) == New(c, d) <==> a == c && b == d
  {
  }
}
