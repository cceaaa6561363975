/** The Moore neighbourhood of a cell and the counting of live neighbours,
    shared by the three variants of the kata. */
module Neighborhood {
  import opened Cells

  /** Reference definition of adjacency: a different cell at most one step
      away in each direction. No wrap-around: coordinates are plain integers. */
  predicate IsNeighbor(c: Cell, d: Cell)
  {
    d != c && -1 <= d.row - c.row <= 1 && -1 <= d.col - c.col <= 1
  }

  /** Row-major order: the order in which the nested row/column loops visit
      cells. */
  predicate RowMajorBefore(a: Cell, b: Cell)
  {
    a.row < b.row || (a.row == b.row && a.col < b.col)
  }

  predicate Distinct<T(==)>(s: seq<T>)
  {
    forall i, j :: 0 <= i < j < |s| ==> s[i] != s[j]
  }

  /** `neighbors` of life_functional.rs: the eight cells `(row + dr, col + dc)`
      with `dr, dc` in {-1, 0, 1}, not both zero, listed in enumeration order. */
  function NeighborSeq(c: Cell): seq<Cell>
  {
    [ Cell(c.row - 1, c.col - 1), Cell(c.row - 1, c.col), Cell(c.row - 1, c.col + 1),
      Cell(c.row, c.col - 1),                             Cell(c.row, c.col + 1),
      Cell(c.row + 1, c.col - 1), Cell(c.row + 1, c.col), Cell(c.row + 1, c.col + 1) ]
  }

  /** The neighbourhood as a set. */
  function Neighbors(c: Cell): (r: set<Cell>)
    ensures forall d :: d in r <==> IsNeighbor(c, d)
    ensures c !in r
    ensures |r| == 8
  {
    var r := set d | d in NeighborSeq(c);
    assert forall d :: IsNeighbor(c, d) ==> d in NeighborSeq(c) by {
      forall d | IsNeighbor(c, d) ensures d in NeighborSeq(c) {
        var s := NeighborSeq(c);
        if d.row == c.row - 1 {
          assert d == s[0] || d == s[1] || d == s[2];
        } else if d.row == c.row {
          assert d == s[3] || d == s[4];
        } else {
          assert d == s[5] || d == s[6] || d == s[7];
        }
      }
    }
    DistinctCard(NeighborSeq(c));
    r
  }

  /** The enumeration visits eight distinct cells, in row-major order, all of
      them neighbours. */
  lemma NeighborSeqFacts(c: Cell)
    ensures |NeighborSeq(c)| == 8
    ensures forall i :: 0 <= i < 8 ==> IsNeighbor(c, NeighborSeq(c)[i])
    ensures forall i, j :: 0 <= i < j < 8 ==> RowMajorBefore(NeighborSeq(c)[i], NeighborSeq(c)[j])
    ensures Distinct(NeighborSeq(c))
  {
  }

  /** Around the origin the neighbour loop builds cells with coordinate -1
      through `Cell::new`; they are ordinary neighbours, and (-1, -1) is the
      first one visited. */
  lemma OriginNeighbors()
    ensures New(-1, -1) in Neighbors(New(0, 0))
    ensures New(-1, 0) in Neighbors(New(0, 0))
    ensures New(0, -1) in Neighbors(New(0, 0))
    ensures NeighborSeq(New(0, 0))[0] == New(-1, -1)
  {
  }

  /** Adjacency is symmetric. */
  lemma NeighborSymmetric(c: Cell, d: Cell)
    ensures IsNeighbor(c, d) <==> IsNeighbor(d, c)
  {
  }

  /** `living_neighbors` of life_functional.rs: the neighbours present in the
      board. */
  function LivingNeighbors(c: Cell, board: set<Cell>): (r: set<Cell>)
    ensures forall d :: d in r <==> IsNeighbor(c, d) && d in board
    ensures r <= board
    ensures |r| <= 8
  {
    var r := Neighbors(c) * board;
    assert r <= Neighbors(c);
    SubsetCard(r, Neighbors(c));
    r
  }

  /** The number of live neighbours of a cell. */
  function LiveCount(board: set<Cell>, c: Cell): nat
  {
    |LivingNeighbors(c, board)|
  }

  /** Every cell adjacent to some cell of the board: the cells that the
      enumeration `flat_map(neighbors)` produces. */
  function Halo(board: set<Cell>): set<Cell>
  {
    set c, d | c in board && d in Neighbors(c) :: d
  }

  /** A cell lies in the halo of a board exactly when it has a live
      neighbour. */
  lemma HaloIffLiveNeighbor(board: set<Cell>, d: Cell)
    ensures d in Halo(board) <==> LiveCount(board, d) > 0
  {
    if d in Halo(board) {
      var c :| c in board && d in Neighbors(c);
      NeighborSymmetric(c, d);
      assert c in LivingNeighbors(d, board);
    }
    if LiveCount(board, d) > 0 {
      var c :| c in LivingNeighbors(d, board);
      NeighborSymmetric(c, d);
      assert d in Neighbors(c);
    }
  }

  /** The halo of a board extended by one cell is the old halo plus that
      cell's neighbourhood. */
  lemma HaloInsert(board: set<Cell>, c: Cell)
    ensures Halo(board + {c}) == Halo(board) + Neighbors(c)
  {
  }

  /** A cell whose whole neighbourhood is alive has 8 live neighbours, the
      most possible. */
  lemma FullNeighborhood(board: set<Cell>, c: Cell)
    requires forall d :: IsNeighbor(c, d) ==> d in board
    ensures LiveCount(board, c) == 8
  {
    assert LivingNeighbors(c, board) == Neighbors(c);
  }

  /** Number of elements of `s[i..]` that belong to `board`, counted the way
      the counting visitor increments its counter. */
  function CountFrom(s: seq<Cell>, i: nat, board: set<Cell>): nat
    decreases |s| - i
  {
    if i >= |s| then 0
    else (if s[i] in board then 1 else 0) + CountFrom(s, i + 1, board)
  }

  lemma SubsetCard<T>(a: set<T>, b: set<T>)
    requires a <= b
    ensures |a| <= |b|
  {
    if a != {} {
      var x :| x in a;
      SubsetCard(a - {x}, b - {x});
    }
  }

  /** A duplicate-free sequence has as many elements as its set. */
  lemma {:induction false} DistinctCard<T>(s: seq<T>)
    requires Distinct(s)
    ensures |set x | x in s| == |s|
  {
    if s != [] {
      var init := s[..|s| - 1];
      DistinctCard(init);
      assert (set x | x in s) == (set x | x in init) + {s[|s| - 1]};
    }
  }

  /** Counting over a duplicate-free enumeration gives the size of its
      intersection with the board. */
  lemma {:induction false} DistinctCount(s: seq<Cell>, i: nat, board: set<Cell>)
    requires Distinct(s) && i <= |s|
    ensures CountFrom(s, i, board) == |(set j | i <= j < |s| :: s[j]) * board|
    decreases |s| - i
  {
    var here := (set j | i <= j < |s| :: s[j]) * board;
    if i < |s| {
      DistinctCount(s, i + 1, board);
      var later := (set j | i + 1 <= j < |s| :: s[j]) * board;
      assert s[i] !in later;
      if s[i] in board {
        assert here == later + {s[i]};
      } else {
        assert here == later;
      }
    } else {
      assert here == {};
    }
  }

  /** The live-neighbour count computed by walking the enumeration. */
  lemma LiveCountBySeq(board: set<Cell>, c: Cell)
    ensures LiveCount(board, c) == CountFrom(NeighborSeq(c), 0, board)
  {
    NeighborSeqFacts(c);
    DistinctCount(NeighborSeq(c), 0, board);
    assert (set j | 0 <= j < 8 :: NeighborSeq(c)[j]) == Neighbors(c);
  }

  /** `visit_neighbors`: the nested loops over rows `row-1..=row+1` and
      columns `col-1..=col+1`, calling the visitor on every visited cell other
      than the centre. The visitor calls are returned as the sequence of their
      arguments. */
  method VisitNeighbors(cell: Cell) returns (visited: seq<Cell>)
    ensures |visited| == 8
    ensures forall i :: 0 <= i < |visited| ==> IsNeighbor(cell, visited[i])
    ensures forall d :: IsNeighbor(cell, d) ==> d in visited
    ensures forall i, j :: 0 <= i < j < |visited| ==> RowMajorBefore(visited[i], visited[j])
  {
    visited := [];
    var row := cell.row - 1;
    while row <= cell.row + 1
      invariant cell.row - 1 <= row <= cell.row + 2
      invariant |visited| == 3 * (row - cell.row + 1) - (if row > cell.row then 1 else 0)
      invariant forall i :: 0 <= i < |visited| ==> IsNeighbor(cell, visited[i]) && visited[i].row < row
      invariant forall d :: IsNeighbor(cell, d) && d.row < row ==> d in visited
      invariant forall i, j :: 0 <= i < j < |visited| ==> RowMajorBefore(visited[i], visited[j])
    {
      var col := cell.col - 1;
      while col <= cell.col + 1
        invariant cell.col - 1 <= col <= cell.col + 2
        invariant |visited| == 3 * (row - cell.row + 1) - (if row > cell.row then 1 else 0)
                               + (col - cell.col + 1) - (if row == cell.row && col > cell.col then 1 else 0)
        invariant forall i :: 0 <= i < |visited| ==>
                    IsNeighbor(cell, visited[i]) && RowMajorBefore(visited[i], Cell(row, col))
        invariant forall d :: IsNeighbor(cell, d) && RowMajorBefore(d, Cell(row, col)) ==> d in visited
        invariant forall i, j :: 0 <= i < j < |visited| ==> RowMajorBefore(visited[i], visited[j])
      {
        var visitee := Cells.New(row, col);
        if visitee != cell {
          visited := visited + [visitee];
        }
        col := col + 1;
      }
      row := row + 1;
    }
  }

  /** `neighbors(board, cell)` of life.rs: a counter incremented by the
      visitor for every visited cell that is alive. */
  method CountLiveNeighbors(board: set<Cell>, cell: Cell) returns (n: nat)
    ensures n == LiveCount(board, cell)
    ensures n <= 8
  {
    var visited := VisitNeighbors(cell);
    n := 0;
    var i := 0;
    while i < |visited|
      invariant 0 <= i <= |visited|
      invariant n + CountFrom(visited, i, board) == CountFrom(visited, 0, board)
    {
      if visited[i] in board {
        n := n + 1;
      }
      i := i + 1;
    }
    assert Distinct(visited) by {
      forall i, j | 0 <= i < j < |visited| ensures visited[i] != visited[j] {
        assert RowMajorBefore(visited[i], visited[j]);
      }
    }
    DistinctCount(visited, 0, board);
    assert (set j | 0 <= j < |visited| :: visited[j]) == Neighbors(cell);
  }
}
