/** The text-grid format read by the `from_grid` helpers and by
    `Board::new`: the text is trimmed and split into lines on `'\n'`; each
    line is trimmed and split into tokens on single spaces; the token `*`
    marks a live cell at (line index, token index). */
module Grid {
  import opened Text

  /** The token that marks a live cell; every other token is a dead cell. */
  const LiveToken: string := "*"

  /** `grid.trim().split("\n")`. */
  function Lines(grid: string): (r: seq<string>)
    ensures |r| >= 1
  {
    Split(Trim(grid), '\n')
  }

  /** `line.trim().split(" ")`. */
  function Tokens(line: string): seq<string>
  {
    Split(Trim(line), ' ')
  }

  /** The lines are the newline-free pieces of the trimmed text: glued back
      with newlines they give the trimmed text again. */
  lemma LinesMeaning(grid: string)
    ensures Join(Lines(grid), '\n') == Trim(grid)
    ensures forall k :: 0 <= k < |Lines(grid)| ==> '\n' !in Lines(grid)[k]
  {
    JoinSplit(Trim(grid), '\n');
  }

  /** The tokens are the space-free pieces of the trimmed line: glued back
      with single spaces they give the trimmed line again. */
  lemma TokensMeaning(line: string)
    ensures |Tokens(line)| >= 1
    ensures Join(Tokens(line), ' ') == Trim(line)
    ensures forall k :: 0 <= k < |Tokens(line)| ==> ' ' !in Tokens(line)[k]
  {
    JoinSplit(Trim(line), ' ');
  }

  /** Token `x` of line `y` of the grid is the live marker. */
  predicate LiveAt(grid: string, y: int, x: int)
  {
    && 0 <= y < |Lines(grid)|
    && 0 <= x < |Tokens(Lines(grid)[y])|
    && Tokens(Lines(grid)[y])[x] == LiveToken
  }

  /** The height the parsers derive: the number of lines. */
  function Height(grid: string): nat
  {
    |Lines(grid)|
  }

  /** The width the parsers derive: the token count of the LAST line (each
      line overwrites the previous width; rows are not checked to agree). */
  function Width(grid: string): nat
  {
    |Tokens(Lines(grid)[|Lines(grid)| - 1])|
  }
}
