/** The grid-parsing board of src/engine/board.rs: live cells are kept in a
    vector of `(x, y)` pairs, that is (column, row), in the order they were
    found, next to the derived width and height. */
module EngineBoard {
  import opened Grid
  import opened Results

  /** A stored live cell: `(x, y)` = (column, row), both `usize`. */
  type Position = (nat, nat)

  datatype Board = Board(cells: seq<Position>, width: nat, height: nat) {
    /** The accessors `height()`, `width()` and `cells()` hand back the
        stored fields. */
    function Height(): nat { height }
    function Width(): nat { width }
    function Cells(): seq<Position> { cells }
  }

  /** Row-major order on `(x, y)` pairs: by row `y` first, then column `x`. */
  predicate RowMajorLess(a: Position, b: Position)
  {
    a.1 < b.1 || (a.1 == b.1 && a.0 < b.0)
  }

  /** `Board::new`: panics on the empty text (tested before trimming);
      otherwise the height is the number of lines, the width is the token
      count of the last line, and the cells are the `(x, y)` of every `*`
      token, listed once each in row-major order of appearance. */
  method New(grid: string) returns (r: Result<Board>)
    ensures r.Err? <==> grid == ""
    ensures r.Ok? ==> r.value.Height() == Height(grid) && r.value.Width() == Width(grid)
    ensures r.Ok? ==> forall p :: p in r.value.Cells() <==> LiveAt(grid, p.1, p.0)
    ensures r.Ok? ==> Sorted(r.value.Cells())
    ensures r.Ok? ==> forall i :: 0 <= i < |r.value.Cells()| ==> r.value.Cells()[i].1 < r.value.Height()
  {
    if grid == "" {
      return Err(EmptyGrid);
    }
    var cells: seq<Position> := [];
    var width: nat := 0;
    var height: nat := 0;
    var lines := Text.Split(Text.Trim(grid), '\n');
    var y: nat := 0;
    while y < |lines|
      invariant y <= |lines| && lines == Lines(grid)
      invariant height == y
      invariant y > 0 ==> width == |Tokens(lines[y - 1])|
      invariant forall p :: p in cells <==> p.1 < y && LiveAt(grid, p.1, p.0)
      invariant Sorted(cells)
      invariant forall i :: 0 <= i < |cells| ==> cells[i].1 < y
    {
      height := y + 1;
      var tokens := Text.Split(Text.Trim(lines[y]), ' ');
      cells, width := ScanLine(tokens, y, cells, width);
      y := y + 1;
    }
    return Ok(Board(cells, width, height));
  }

  predicate Sorted(cells: seq<Position>)
  {
    forall i, j :: 0 <= i < j < |cells| ==> RowMajorLess(cells[i], cells[j])
  }

  /** The inner loop of `Board::new` over the tokens of line `y`: each token
      sets the width to its index plus one, and a `*` token pushes `(x, y)`. */
  method ScanLine(tokens: seq<string>, y: nat, cells: seq<Position>, width: nat)
    returns (out: seq<Position>, width': nat)
    requires Sorted(cells)
    requires forall i :: 0 <= i < |cells| ==> cells[i].1 < y
    ensures |cells| <= |out| && out[..|cells|] == cells
    ensures forall p :: p in out <==>
              p in cells || (p.1 == y && p.0 < |tokens| && tokens[p.0] == LiveToken)
    ensures Sorted(out)
    ensures forall i :: 0 <= i < |out| ==> out[i].1 <= y
    ensures width' == if tokens == [] then width else |tokens|
  {
    out := cells;
    width' := width;
    var x: nat := 0;
    while x < |tokens|
      invariant x <= |tokens|
      invariant |cells| <= |out| && out[..|cells|] == cells
      invariant width' == if x == 0 then width else x
      invariant forall p :: p in out <==>
                  p in cells || (p.1 == y && p.0 < x && tokens[p.0] == LiveToken)
      invariant Sorted(out)
      invariant forall i :: 0 <= i < |out| ==> RowMajorLess(out[i], (x, y))
    {
      width' := x + 1;
      if tokens[x] == LiveToken {
        out := out + [(x, y)];
      }
      x := x + 1;
    }
  }

  /** `Board::empty`: no cells and zero dimensions. */
  function Empty(): (b: Board)
    ensures b.Height() == 0 && b.Width() == 0
    ensures forall p :: p !in b.Cells()
  {
    Board([], 0, 0)
  }

  /** The accessors read back the fields a board was built with. */
  lemma Accessors(cells: seq<Position>, width: nat, height: nat)
    ensures var b := Board(cells, width, height);
            b.Height() == height && b.Width() == width && b.Cells() == cells
  {
  }
}
