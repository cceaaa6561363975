/** The glider of the integration tests, proved one 5 x 5 window at a time:
    inside the window each cell is checked against the rule by evaluating
    its eight-term live-neighbour count, and outside it no cell has a live
    neighbour. */
module Scenarios {
  import opened Cells
  import opened Rules
  import opened Neighborhood
  import FunctionalLife

  /** The four glider phases of the integration tests, as (row, col) sets. */
  const Glider1: set<Cell> := {Cell(1, 1), Cell(1, 3), Cell(2, 2), Cell(2, 3), Cell(3, 2)}
  const Glider2: set<Cell> := {Cell(1, 3), Cell(2, 1), Cell(2, 3), Cell(3, 2), Cell(3, 3)}
  const Glider3: set<Cell> := {Cell(1, 2), Cell(2, 3), Cell(2, 4), Cell(3, 2), Cell(3, 3)}
  const Glider4: set<Cell> := {Cell(1, 3), Cell(2, 4), Cell(3, 2), Cell(3, 3), Cell(3, 4)}

  /** Cell `d` is in `next` exactly when the rule accepts it on `board`. */
  predicate Agrees(board: set<Cell>, next: set<Cell>, d: Cell)
  {
    d in next <==> EvaluateCell(d in board, LiveCount(board, d))
  }

  function Ind(b: bool): nat
  {
    if b then 1 else 0
  }

  /** The live-neighbour count written out term by term over the eight
      neighbours, a form the verifier can evaluate on literal boards. */
  function Count8(board: set<Cell>, c: Cell): nat
  {
    Ind(Cell(c.row - 1, c.col - 1) in board) + Ind(Cell(c.row - 1, c.col) in board)
    + Ind(Cell(c.row - 1, c.col + 1) in board) + Ind(Cell(c.row, c.col - 1) in board)
    + Ind(Cell(c.row, c.col + 1) in board) + Ind(Cell(c.row + 1, c.col - 1) in board)
    + Ind(Cell(c.row + 1, c.col) in board) + Ind(Cell(c.row + 1, c.col + 1) in board)
  }

  lemma Count8IsLiveCount(board: set<Cell>, c: Cell)
    ensures Count8(board, c) == LiveCount(board, c)
  {
    LiveCountBySeq(board, c);
    var s := NeighborSeq(c);
    assert CountFrom(s, 8, board) == 0;
    assert CountFrom(s, 7, board) == Ind(s[7] in board);
    assert CountFrom(s, 6, board) == Ind(s[6] in board) + CountFrom(s, 7, board);
    assert CountFrom(s, 5, board) == Ind(s[5] in board) + CountFrom(s, 6, board);
    assert CountFrom(s, 4, board) == Ind(s[4] in board) + CountFrom(s, 5, board);
    assert CountFrom(s, 3, board) == Ind(s[3] in board) + CountFrom(s, 4, board);
    assert CountFrom(s, 2, board) == Ind(s[2] in board) + CountFrom(s, 3, board);
    assert CountFrom(s, 1, board) == Ind(s[1] in board) + CountFrom(s, 2, board);
  }

  /** Checks cells `(r, c)..(r, c1)` of a row against the rule. */
  function RowAgrees(board: set<Cell>, next: set<Cell>, r: int, c: int, c1: int): bool
    decreases c1 - c
  {
    c > c1 ||
    (&& ((Cell(r, c) in next) == EvaluateCell(Cell(r, c) in board, Count8(board, Cell(r, c))))
     && RowAgrees(board, next, r, c + 1, c1))
  }

  /** Cells `(r, c)..(r, c1)` all agree with the rule. */
  predicate RowHolds(board: set<Cell>, next: set<Cell>, r: int, c: int, c1: int)
  {
    forall k {:trigger Agrees(board, next, Cell(r, k))} :: c <= k <= c1 ==> Agrees(board, next, Cell(r, k))
  }

  lemma {:induction false} RowAgreesSound(board: set<Cell>, next: set<Cell>, r: int, c: int, c1: int)
    requires RowAgrees(board, next, r, c, c1)
    ensures RowHolds(board, next, r, c, c1)
    decreases c1 - c
  {
    if c <= c1 {
      RowAgreesSound(board, next, r, c + 1, c1);
      var d := Cell(r, c);
      Count8IsLiveCount(board, d);
      assert Agrees(board, next, d);
      forall k | c <= k <= c1 ensures Agrees(board, next, Cell(r, k)) {
        if k > c {
          assert c + 1 <= k <= c1;
        }
      }
    }
  }

  /** The 5 x 5 window at `(r0, c0)` holds the live cells in its inner 3 x 3
      square and every cell of `next`, and all its cells agree with the
      rule. */
  predicate Window(board: set<Cell>, next: set<Cell>, r0: int, c0: int)
  {
    && (forall c :: c in board ==> r0 + 1 <= c.row <= r0 + 3 && c0 + 1 <= c.col <= c0 + 3)
    && (forall c :: c in next ==> r0 <= c.row <= r0 + 4 && c0 <= c.col <= c0 + 4)
    && RowHolds(board, next, r0, c0, c0 + 4)
    && RowHolds(board, next, r0 + 1, c0, c0 + 4)
    && RowHolds(board, next, r0 + 2, c0, c0 + 4)
    && RowHolds(board, next, r0 + 3, c0, c0 + 4)
    && RowHolds(board, next, r0 + 4, c0, c0 + 4)
  }

  /** Every cell of the window agrees with the rule, and so does every cell
      outside it, since it has no live neighbour. */
  lemma WindowAgrees(board: set<Cell>, next: set<Cell>, r0: int, c0: int, d: Cell)
    requires Window(board, next, r0, c0)
    ensures Agrees(board, next, d)
  {
    if r0 <= d.row <= r0 + 4 && c0 <= d.col <= c0 + 4 {
      assert d == Cell(d.row, d.col);
      if d.row == r0 {
        assert RowHolds(board, next, r0, c0, c0 + 4);
      } else if d.row == r0 + 1 {
        assert RowHolds(board, next, r0 + 1, c0, c0 + 4);
      } else if d.row == r0 + 2 {
        assert RowHolds(board, next, r0 + 2, c0, c0 + 4);
      } else if d.row == r0 + 3 {
        assert RowHolds(board, next, r0 + 3, c0, c0 + 4);
      } else {
        assert RowHolds(board, next, r0 + 4, c0, c0 + 4);
      }
    } else {
      assert LivingNeighbors(d, board) == {};
      NoNeighborsMeansDead(d in board);
    }
  }

  /** One generation inside a 5 x 5 window: under the window conditions,
      `next` is the next generation. */
  lemma WindowStep(board: set<Cell>, next: set<Cell>, r0: int, c0: int)
    requires Window(board, next, r0, c0)
    ensures FunctionalLife.Evolve(board) == next
  {
    forall d ensures d in FunctionalLife.Evolve(board) <==> d in next {
      WindowAgrees(board, next, r0, c0, d);
      FunctionalLife.EvolveMeaning(board, d);
    }
  }

  /** The glider test: three generations, each the next phase. */
  lemma GliderSequence()
    ensures FunctionalLife.Evolve(Glider1) == Glider2
    ensures FunctionalLife.Evolve(Glider2) == Glider3
    ensures FunctionalLife.Evolve(Glider3) == Glider4
  {
    GliderStep1();
    GliderStep2();
    GliderStep3();
  }

  lemma GliderStep1()
    ensures FunctionalLife.Evolve(Glider1) == Glider2
  {
    Phase1Holds0();
    Phase1Holds1();
    Phase1Holds2();
    Phase1Holds3();
    Phase1Holds4();
    WindowStep(Glider1, Glider2, 0, 0);
  }

  lemma Phase1Row0()
    ensures RowAgrees(Glider1, Glider2, 0, 0, 4)
  {
  }

  lemma Phase1Row1()
    ensures RowAgrees(Glider1, Glider2, 1, 0, 4)
  {
  }

  lemma Phase1Row2()
    ensures RowAgrees(Glider1, Glider2, 2, 0, 4)
  {
  }

  lemma Phase1Row3()
    ensures RowAgrees(Glider1, Glider2, 3, 0, 4)
  {
  }

  lemma Phase1Row4()
    ensures RowAgrees(Glider1, Glider2, 4, 0, 4)
  {
  }

  lemma Phase1Holds0()
    ensures RowHolds(Glider1, Glider2, 0, 0, 4)
  {
    Phase1Row0();
    RowAgreesSound(Glider1, Glider2, 0, 0, 4);
  }

  lemma Phase1Holds1()
    ensures RowHolds(Glider1, Glider2, 1, 0, 4)
  {
    Phase1Row1();
    RowAgreesSound(Glider1, Glider2, 1, 0, 4);
  }

  lemma Phase1Holds2()
    ensures RowHolds(Glider1, Glider2, 2, 0, 4)
  {
    Phase1Row2();
    RowAgreesSound(Glider1, Glider2, 2, 0, 4);
  }

  lemma Phase1Holds3()
    ensures RowHolds(Glider1, Glider2, 3, 0, 4)
  {
    Phase1Row3();
    RowAgreesSound(Glider1, Glider2, 3, 0, 4);
  }

  lemma Phase1Holds4()
    ensures RowHolds(Glider1, Glider2, 4, 0, 4)
  {
    Phase1Row4();
    RowAgreesSound(Glider1, Glider2, 4, 0, 4);
  }

  lemma GliderStep2()
    ensures FunctionalLife.Evolve(Glider2) == Glider3
  {
    Phase2Holds0();
    Phase2Holds1();
    Phase2Holds2();
    Phase2Holds3();
    Phase2Holds4();
    WindowStep(Glider2, Glider3, 0, 0);
  }

  lemma Phase2Row0()
    ensures RowAgrees(Glider2, Glider3, 0, 0, 4)
  {
  }

  lemma Phase2Row1()
    ensures RowAgrees(Glider2, Glider3, 1, 0, 4)
  {
  }

  lemma Phase2Row2()
    ensures RowAgrees(Glider2, Glider3, 2, 0, 4)
  {
  }

  lemma Phase2Row3()
    ensures RowAgrees(Glider2, Glider3, 3, 0, 4)
  {
  }

  lemma Phase2Row4()
    ensures RowAgrees(Glider2, Glider3, 4, 0, 4)
  {
  }

  lemma Phase2Holds0()
    ensures RowHolds(Glider2, Glider3, 0, 0, 4)
  {
    Phase2Row0();
    RowAgreesSound(Glider2, Glider3, 0, 0, 4);
  }

  lemma Phase2Holds1()
    ensures RowHolds(Glider2, Glider3, 1, 0, 4)
  {
    Phase2Row1();
    RowAgreesSound(Glider2, Glider3, 1, 0, 4);
  }

  lemma Phase2Holds2()
    ensures RowHolds(Glider2, Glider3, 2, 0, 4)
  {
    Phase2Row2();
    RowAgreesSound(Glider2, Glider3, 2, 0, 4);
  }

  lemma Phase2Holds3()
    ensures RowHolds(Glider2, Glider3, 3, 0, 4)
  {
    Phase2Row3();
    RowAgreesSound(Glider2, Glider3, 3, 0, 4);
  }

  lemma Phase2Holds4()
    ensures RowHolds(Glider2, Glider3, 4, 0, 4)
  {
    Phase2Row4();
    RowAgreesSound(Glider2, Glider3, 4, 0, 4);
  }

  lemma GliderStep3()
    ensures FunctionalLife.Evolve(Glider3) == Glider4
  {
    Phase3Holds0();
    Phase3Holds1();
    Phase3Holds2();
    Phase3Holds3();
    Phase3Holds4();
    WindowStep(Glider3, Glider4, 0, 1);
  }

  lemma Phase3Row0()
    ensures RowAgrees(Glider3, Glider4, 0, 1, 5)
  {
  }

  lemma Phase3Row1()
    ensures RowAgrees(Glider3, Glider4, 1, 1, 5)
  {
  }

  lemma Phase3Row2()
    ensures RowAgrees(Glider3, Glider4, 2, 1, 5)
  {
  }

  lemma Phase3Row3()
    ensures RowAgrees(Glider3, Glider4, 3, 1, 5)
  {
  }

  lemma Phase3Row4()
    ensures RowAgrees(Glider3, Glider4, 4, 1, 5)
  {
  }

  lemma Phase3Holds0()
    ensures RowHolds(Glider3, Glider4, 0, 1, 5)
  {
    Phase3Row0();
    RowAgreesSound(Glider3, Glider4, 0, 1, 5);
  }

  lemma Phase3Holds1()
    ensures RowHolds(Glider3, Glider4, 1, 1, 5)
  {
    Phase3Row1();
    RowAgreesSound(Glider3, Glider4, 1, 1, 5);
  }

  lemma Phase3Holds2()
    ensures RowHolds(Glider3, Glider4, 2, 1, 5)
  {
    Phase3Row2();
    RowAgreesSound(Glider3, Glider4, 2, 1, 5);
  }

  lemma Phase3Holds3()
    ensures RowHolds(Glider3, Glider4, 3, 1, 5)
  {
    Phase3Row3();
    RowAgreesSound(Glider3, Glider4, 3, 1, 5);
  }

  lemma Phase3Holds4()
    ensures RowHolds(Glider3, Glider4, 4, 1, 5)
  {
    Phase3Row4();
    RowAgreesSound(Glider3, Glider4, 4, 1, 5);
  }
}
