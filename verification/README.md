# Conway's Game of Life kata, modelled in Dafny

The repository holds three near-identical versions of a Game of Life kata.
Each has an integer-coordinate `Cell`, the birth/survival rule
`evaluate_cell`, Moore-neighbourhood enumeration and counting, and a
one-generation `evolve` over a sparse set of live cells. Each also has a text
grid reader: the `from_grid` test helpers and `Board::new`.

This project models all three versions:

- `src/life_functional.rs` is the unbounded variant: a board is a set of
  cells, and the candidates are the neighbours of live cells.
- `src/life.rs` is the bounded variant: a board has cells plus a height and
  width read from the grid, and the candidates are the live cells plus their
  neighbours.
- `src/engine/life.rs` is the engine. It has the same algorithm, written
  against an abstract board record.
- `src/engine/board.rs` is the grid parser `Board::new`. It stores `(x, y)` =
  (column, row) pairs in a vector.
- `src/engine/cell.rs` is the `Cell` value type.

`evaluate_cell` exists three times with the same table
(src/life_functional.rs:24-29 as a `match`, src/life.rs:33-39 and
src/engine/life.rs:28-34 as an `if`). It is modelled once, as
`Rules.EvaluateCell`. The callback-driven `visit_neighbors` and the counting
`neighbors` exist twice, identically (src/life.rs:41-59 and
src/engine/life.rs:37-55). They are modelled once, as
`Neighborhood.VisitNeighbors` and `Neighborhood.CountLiveNeighbors`. The
`neighbors` of src/life_functional.rs:31-40 is a different function: an
iterator over the eight neighbours, modelled as `Neighborhood.NeighborSeq`
and `Neighborhood.Neighbors`.

Modules, one per file:

| file | module | what |
|---|---|---|
| cell.dfy | `Cells` | `Cell` and `Cell::new` |
| rules.dfy | `Rules` | `evaluate_cell` |
| neighborhood.dfy | `Neighborhood` | neighbours, live neighbours, the halo of a board, the visiting loop and the counting loop |
| text.dfy | `Text` | `str::trim` (Unicode `White_Space`) and `str::split` on one character |
| grid.dfy | `Grid` | the grid format: lines, tokens, the `*` marker, height and width |
| results.dfy | `Results` | the result type that stands in for the panic on empty text |
| life_functional.dfy | `FunctionalLife` | the unbounded variant |
| life_bounded.dfy | `BoundedLife` | the bounded variant of `src/life.rs` |
| engine_board.dfy | `EngineBoard` | `Board::new`, `Board::empty` and the accessors |
| engine_life.dfy | `EngineLife` | the engine's `evolve`, `neighbors`, `from_size` and `from_grid` |
| scenarios.dfy | `Scenarios` | the glider, proved one 5 x 5 window at a time |
| evolve_examples.dfy | `EvolveExamples` | the evolve and neighbour tests, the engine glider, no clipping |
| grid_examples.dfy | `GridExamples` | the parser tests |
| glider_grid.dfy | `GliderGrid` | the first glider phase read from its test text |

Modelling decisions:

- Coordinates are unbounded `int`s. Boards are mathematical sets, so
  `HashSet` order plays no part.
- The Rust code panics on the empty text. The model returns
  `Err(EmptyGrid)` instead. Only the exact empty string is rejected: the
  test is made before trimming, so whitespace-only text is accepted and
  reads as one line with one empty token.
- Evolution never clips cells to the recorded height and width.
  `EvolveExamples.NoClipping` shows a birth at row -1.
- Width is the token count of the last line, as the code computes it. Rows
  are not checked to agree: `GridExamples.RaggedRows` shows a live cell
  outside the recorded width.
- The glider is proved one 5 x 5 window at a time. Each cell of the window
  is checked against the rule by evaluating its eight-term live-neighbour
  count, and no cell outside the window has a live neighbour. The phases
  are written as sets of cells. `GliderGrid.GliderFromText` reads the first
  phase from its test text and gets the same set.

The two `evolve` variants are shown equal by
`BoundedLife.CandidateEquivalence`. Adding the live cells to the candidates
changes nothing, because a live cell that is nobody's neighbour has no live
neighbour and dies.

## Model

| member | source | states |
|---|---|---|
| Cells.New | src/engine/cell.rs:8-10 | `Cell::new(row, col)` has exactly the given row and column |
| Cells.NewInjective | src/engine/cell.rs:1-5 | derived equality is structural: two constructed cells are equal iff both coordinates agree |
| Rules.EvaluateCell | src/life_functional.rs:24-29 | `evaluate_cell`; `Rules.EvaluateCellTable` gives its table for every count in both states, the same table as src/life.rs:33-39 and src/engine/life.rs:28-34 |
| Rules.EvaluateCellTable | src/life_functional.rs:24-29 | a live cell survives iff it has 2 or 3 live neighbours; a dead cell is born iff it has exactly 3 |
| Rules.EvaluateCellTests | src/life_functional.rs:113-144 | the test table for 0..8 neighbours: under-population, survival, over-crowding, birth |
| Rules.NoNeighborsMeansDead | src/life.rs:33-39 | with no live neighbour, a cell is dead next whatever its state |
| Neighborhood.NeighborSeq | src/life_functional.rs:31-40 | the iterator's output in order; `Neighborhood.NeighborSeqFacts` proves eight distinct adjacent cells in row-major order, and `Neighborhood.Neighbors` proves every adjacent cell is among them |
| Neighborhood.OriginNeighbors | src/engine/life.rs:37-47 | around (0, 0) the loop's `Cell::new(row, col)` yields (-1, -1), (-1, 0) and (0, -1) as ordinary neighbours, and (-1, -1) is visited first |
| Neighborhood.Neighbors | src/life_functional.rs:31-40 | the neighbourhood is exactly the cells at most one step away in each direction, never the cell itself, eight in all |
| Neighborhood.NeighborSeqFacts | src/life_functional.rs:31-40 | the enumeration yields eight distinct neighbours in row-major order |
| Neighborhood.NeighborSymmetric | src/life_functional.rs:31-40 | adjacency is symmetric |
| Neighborhood.LivingNeighbors | src/life_functional.rs:42-44 | the living neighbours are exactly the neighbours in the board, so there are at most 8 |
| Neighborhood.HaloIffLiveNeighbor | src/life_functional.rs:12-14 | a cell is produced by `flat_map(neighbors)` over the board iff it has a live neighbour |
| Neighborhood.HaloInsert | src/life.rs:21-24 | inserting one live cell's neighbours grows the candidate halo by exactly that neighbourhood |
| Neighborhood.FullNeighborhood | src/life.rs:69-82 | a cell whose whole neighbourhood is alive has 8 live neighbours |
| Neighborhood.DistinctCount | src/life.rs:53-59 | counting a duplicate-free visit order gives the size of the visited cells' intersection with the board |
| Neighborhood.LiveCountBySeq | src/life.rs:53-59 | counting live cells along the visit order gives the live-neighbour count |
| Neighborhood.VisitNeighbors | src/life.rs:41-51 | the visitor is called eight times, once per neighbour, in row-major order, never on the cell itself |
| Neighborhood.CountLiveNeighbors | src/life.rs:53-59 | the counter ends at the number of live neighbours, at most 8 |
| Text.TrimStart | src/life.rs:315 | the leading half of `str::trim`; `Text.TrimStartCuts` states what it removes and keeps |
| Text.TrimEnd | src/life.rs:315 | the trailing half of `str::trim`; `Text.TrimEndCuts` states what it removes and keeps |
| Text.Trim | src/life.rs:315 | `str::trim`; `Text.TrimIsSlice` and `Text.TrimPadded` state its result |
| Text.TrimStartCuts | src/life.rs:315 | leading trim removes a whitespace-only prefix and leaves a suffix that does not start with whitespace |
| Text.TrimEndCuts | src/life.rs:315 | trailing trim removes a whitespace-only suffix and leaves a prefix that does not end with whitespace |
| Text.TrimIsSlice | src/life.rs:315 | `trim` returns a slice with only whitespace outside it and no whitespace at its ends |
| Text.TrimEmptyIff | src/life.rs:315 | `trim` yields the empty string iff the text is all whitespace |
| Text.TrimIdempotent | src/life.rs:317 | trimming twice is trimming once |
| Text.TrimPadded | src/life.rs:317 | surrounding whitespace is removed and nothing else |
| Text.Split | src/life.rs:315 | `split` yields at least one piece and no piece contains the separator |
| Text.JoinSplit | src/life.rs:315 | the pieces of `split` glued with the separator give back the text |
| Text.SplitJoin | src/life.rs:317 | separator-free pieces glued with the separator split back into the same pieces |
| Text.SplitCount | src/life.rs:317 | there is one more piece than there are separators, so adjacent separators give empty tokens |
| Grid.Lines | src/life.rs:315 | `grid.trim().split("\n")`: at least one line; `Grid.LinesMeaning` proves the lines are newline-free and glue back to the trimmed text |
| Grid.LinesMeaning | src/life.rs:315 | the lines have no newline, and joined with newlines they give the trimmed grid |
| Grid.Tokens | src/life.rs:317 | `line.trim().split(" ")`; `Grid.TokensMeaning` states the tokens |
| Grid.TokensMeaning | src/life.rs:317 | there is at least one token, no token has a space, and joined with single spaces the tokens give the trimmed line |
| Grid.Height | src/life.rs:315-316 | the line count, which is the last `y + 1` the loop stores; `BoundedLife.FromGrid` proves its loop ends with it |
| Grid.Width | src/life.rs:317-318 | the token count of the last line, because every line overwrites `width`; `GridExamples.RaggedRows` shows rows are not checked to agree |
| FunctionalLife.Evolve | src/life_functional.rs:11-22 | `evolve`; `FunctionalLife.EvolveMeaning` states it cell by cell over the whole plane |
| FunctionalLife.EvolveMeaning | src/life_functional.rs:11-22 | for every cell of the plane: alive next iff the rule accepts its state and live-neighbour count |
| FunctionalLife.Survival | src/life_functional.rs:11-22 | a live cell stays alive iff it has 2 or 3 live neighbours |
| FunctionalLife.Birth | src/life_functional.rs:11-22 | a dead cell comes alive iff it has exactly 3 live neighbours |
| FunctionalLife.EvolveLocal | src/life_functional.rs:12-14 | every cell alive next is adjacent to a cell alive now |
| FunctionalLife.IsolatedCellDies | src/life_functional.rs:172-192 | a live cell with no live neighbour is absent from the next generation |
| FunctionalLife.EvolveEmpty | src/life_functional.rs:11-22 | the empty board evolves to the empty board |
| FunctionalLife.CellsOfTokens | src/life_functional.rs:320-327 | a line contributes exactly the cells whose token is `*`, at (line index, token index) |
| FunctionalLife.CellsOfLines | src/life_functional.rs:315-328 | the lines from index y on contribute exactly the marked cells of those lines |
| FunctionalLife.FromGrid | src/life_functional.rs:314-329 | the board holds (y, x) iff token x of trimmed line y of the trimmed text is `*` |
| BoundedLife.Candidates | src/life.rs:19-24 | the candidate set: the live cells and their neighbours; `BoundedLife.GatherCandidates` proves the loop builds exactly this set |
| BoundedLife.EvolveCells | src/life.rs:26-28 | the filtered candidates; `BoundedLife.EvolveCellsMeaning` states it cell by cell |
| BoundedLife.CandidateEquivalence | src/life.rs:18-31 | the bounded `evolve` (live cells plus neighbours as candidates) equals the functional one (neighbours only) |
| BoundedLife.EvolveCellsMeaning | src/life.rs:26-28 | the kept candidates are exactly the cells the rule accepts, and all lie among the candidates |
| BoundedLife.Evolve | src/life.rs:18-31 | height and width are copied, the cells are the functional next generation, and every cell agrees with the rule |
| BoundedLife.GatherCandidates | src/life.rs:19-24 | the first loop collects exactly the live cells and their neighbours |
| BoundedLife.KeepSurvivors | src/life.rs:26-28 | the filter keeps exactly the candidates the rule accepts on their live-neighbour count |
| BoundedLife.FromGrid | src/life.rs:307-327 | fails iff the text is `""`; otherwise height is the line count, width the last line's token count (both at least 1), the cells are exactly the `*` positions, and every cell has 0 <= row < height and col >= 0 |
| EngineBoard.New | src/engine/board.rs:10-31 | fails iff the text is `""`; otherwise height and width as above, the pairs are exactly the `(x, y)` of `*` tokens, strictly row-major with no duplicates, and every y < height |
| EngineBoard.ScanLine | src/engine/board.rs:21-26 | one line's scan appends exactly the `(x, y)` of its `*` tokens in column order, keeps the earlier pairs, and sets the width to the token count |
| EngineBoard.Empty | src/engine/board.rs:33-35 | the empty board has height 0, width 0 and no cells |
| EngineBoard.Accessors | src/engine/board.rs:41-51 | `height()`, `width()` and `cells()` return the fields the board was built with |
| EngineLife.FromSize | src/engine/life.rs:6-11 | a board made from a size has that height and width and no live cell |
| EngineLife.Board.Contains | src/engine/life.rs:22 | `board.contains(cell)`: membership in the live cells, the relation `EngineLife.Evolve` and `EngineLife.FromSize` are stated through |
| EngineLife.Evolve | src/engine/life.rs:13-26 | height and width are copied; a cell is alive next iff the rule accepts it; only live cells and their neighbours can be alive next |
| EngineLife.Neighbors | src/engine/life.rs:49-55 | the count is the number of board cells adjacent to the cell, at most 8 |
| EngineLife.EvolveFromSize | src/engine/life.rs:13-26 | `evolve` of a board made by `from_size`, the board the test at src/engine/life.rs:61-72 sets up, is that same empty board of the same size |
| EngineLife.FromGrid | src/engine/life.rs:193-214 | fails iff the text is `""`; otherwise the dimensions and the `*` positions of the grid |
| Scenarios.Count8IsLiveCount | src/life.rs:41-59 | the eight-term sum over the visit order equals the live-neighbour count |
| Scenarios.RowAgreesSound | src/life_functional.rs:11-22 | a row checked cell by cell agrees with the rule at every cell |
| Scenarios.WindowAgrees | src/life_functional.rs:11-22 | under the window conditions every cell of the plane agrees with the rule |
| Scenarios.WindowStep | src/life_functional.rs:11-22 | under the window conditions `next` is exactly the next generation |
| Scenarios.GliderSequence | src/life_functional.rs:266-303 | glider phase 1 evolves to phase 2, 2 to 3, and 3 to 4 |
| GliderGrid.SplitFirst | src/life_functional.rs:314-317 | a first piece, a newline and a rest split into the first piece followed by the rest's pieces |
| GliderGrid.IndentedTokens | src/life_functional.rs:320-322 | an indented row has the tokens of the bare row |
| GliderGrid.GliderLines | src/life_functional.rs:268-274 | the first glider text trims and splits into its five rows |
| GliderGrid.GliderTokens | src/life_functional.rs:268-274 | the five rows have the tokens of the glider's first phase |
| GliderGrid.GliderFromText | src/life_functional.rs:268-274 | `from_grid` of the first glider text is exactly the set `Scenarios.Glider1` the glider proofs start from |
| EvolveExamples.EngineGlider1 | src/engine/integration_tests.rs:7-37 | the engine steps glider phase 1 to phase 2 on a 5 x 5 board |
| EvolveExamples.EngineGlider2 | src/engine/integration_tests.rs:7-37 | the engine steps glider phase 2 to phase 3 on a 5 x 5 board |
| EvolveExamples.EngineGlider3 | src/engine/integration_tests.rs:7-37 | the engine steps glider phase 3 to phase 4 on a 5 x 5 board |
| EvolveExamples.EngineStep | src/engine/life.rs:13-26 | an engine step is the functional step on the cells, with the size kept |
| EvolveExamples.Decide | src/life_functional.rs:11-22 | given a cell's live-neighbour count, the next generation decides it by the rule |
| EvolveExamples.StayAliveWithTwo | src/life_functional.rs:151-170 | the live cell (1, 1) with two live neighbours stays alive |
| EvolveExamples.StayAliveWithThree | src/life_functional.rs:151-170 | the live cell (1, 5) with three live neighbours stays alive |
| EvolveExamples.CellsDie | src/life_functional.rs:172-192 | live cells with zero, one and four live neighbours die |
| EvolveExamples.CellIsBorn | src/life_functional.rs:194-212 | the dead cell (1, 5) with three live neighbours is born |
| EvolveExamples.BlockCentre | src/life_functional.rs:69-90 | the centre of a full 3 x 3 block has as living neighbours exactly the eight cells around it |
| EvolveExamples.LoneCell | src/life_functional.rs:92-107 | a lone cell has no living neighbour |
| EvolveExamples.NeighborsEnumerated | src/life_functional.rs:54-66 | the neighbours of (2, 3) are exactly the eight listed cells |
| EvolveExamples.NoClipping | src/life.rs:18-31 | a blinker on row 0 gives birth at row -1 and at row 1: evolution ignores the recorded bounds |
| GridExamples.TrimmedSplit | src/life.rs:315 | a trimmed join of separator-free pieces reads back as those pieces |
| GridExamples.TwoLines | src/life.rs:315-322 | on a two-line grid the live cells, height and width come from the two lines' tokens |
| GridExamples.ThreeLines | src/life.rs:315-322 | on a three-line grid the live cells, height and width come from the three lines' tokens |
| GridExamples.SingleCell | src/life_functional.rs:232-237 | `". * .\n. . ."` reads as the single cell (0, 1), height 2, width 3 |
| GridExamples.AllDead | src/life.rs:200-213 | `". . .\n. . ."` reads as no live cell, height 2, width 3 |
| GridExamples.EmptyText | src/life_functional.rs:218-223 | the empty text is one empty line with one empty token, and it reads as the empty board |
| GridExamples.RaggedRows | src/engine/board.rs:19-27 | in `"* *\n*"` the width is 1, yet (0, 1) is marked live |
| GridExamples.SingleCellVector | src/engine/board.rs:91-96 | `Board::new` on `". * .\n. . ."` must produce the vector `[(1, 0)]` |
| GridExamples.VectorOf | src/engine/board.rs:19-27 | on a grid whose only live cell is c, the sorted vector is `[(c.col, c.row)]` |
| GridExamples.OnlyElement | src/engine/board.rs:19-27 | a strictly ordered vector whose entries all equal q, and which holds q, is `[q]` |
| GridExamples.PaddedLines | src/life_functional.rs:239-244 | the padded grid trims and splits into its three lines |
| GridExamples.PaddedTokens | src/life_functional.rs:239-244 | each padded line trims and splits into its two tokens |
| GridExamples.PaddedGrid | src/life_functional.rs:239-244 | leading and trailing spaces are ignored: the padded grid reads as the single cell (1, 1), height 3, width 2 |
| GridExamples.PaddedVector | src/engine/board.rs:98-105 | `Board::new` on the padded grid must produce the vector `[(1, 1)]` |
| GridExamples.OneRowOf | src/life.rs:315 | a single row with whitespace and blank lines around it is read as one line |
| GridExamples.TwoRowsOf | src/life.rs:315-317 | two rows with whitespace around them are read as two lines, and the second row's indentation does not change its tokens |
| GridExamples.EmptyLinesIgnored | src/life.rs:231-240 | the grid that opens and closes on blank indented lines has height 1, width 4 and no live cell |
| GridExamples.StarRows | src/life.rs:315-322 | on two lines of three `*` tokens, the live cells are exactly the 2 x 3 rectangle, height 2, width 3 |
| GridExamples.AllCells | src/life.rs:242-257 | the indented all-cells grid has height 2, width 3, and is live exactly at rows 0..=1 by columns 0..=2 |
| GridExamples.AllCellsBoard | src/life_functional.rs:246-259 | the unbounded reader yields exactly the cells of rows 0..=1 by columns 0..=2 |

## Left out

- `new_board` (src/engine/life.rs:6-11) reads `height` and `width` through the external `config` crate with `unwrap`. Only the `Board::from_size` it calls is modelled, as `EngineLife.FromSize`.
- `Board::is_empty` (src/engine/board.rs:37-39) always answers `true`, and `PartialEq` for the parsed board (src/engine/board.rs:54-62) always answers "not equal". Both are placeholders and are not modelled. No property is stated through them.
- The ignored test at src/engine/board.rs:118-129 expects column-major order. That contradicts the push order, so it is not asserted. `EngineBoard.New` states row-major order, and `GridExamples.AllCells` gives the test's dimensions and live cells.
- src/engine/life.rs is written against a board with `Board::new(cells, height, width)`, `from_size` and `contains`, which src/engine/board.rs does not provide. The engine's board is modelled as its own record of cells and dimensions.
- The `from_grid` used by src/engine/integration_tests.rs is not part of this model. The engine glider is stated on 5 x 5 boards holding the phases' cells.
- Neighborhood.VisitNeighbors: coordinates are unbounded, so `isize` overflow at `isize::MIN`/`isize::MAX` is not modelled. Nor are the `usize`-to-`isize` casts of the readers.
- `HashSet` hashing and iteration order: boards are sets, and the candidate loops take cells in an arbitrary order.
- `\r\n` line endings get no special treatment: `'\r'` is whitespace, so `trim` removes it at line ends, as in the code.
- Debug formatting and assertion messages.
