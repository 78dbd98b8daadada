/**
 * The board snapshot the brain reads: a width x height grid of filled/empty
 * cells (column-major, row 0 at the bottom) and the board's "max height"
 * high-water mark, with the read accessors the brain uses
 * (getGrid, getColumnHeight, getRowWidth, getMaxHeight).
 */
module Grid {

  /** `cells[x][y]` is the cell in column `x`, row `y`. */
  datatype BoardState = BoardState(width: nat, height: nat, cells: seq<seq<bool>>, maxHeight: nat)

  /** The grid really is `width` columns of `height` cells each. */
  predicate Shaped(s: BoardState)
  {
    |s.cells| == s.width &&
    forall x :: 0 <= x < s.width ==> |s.cells[x]| == s.height
  }

  /**
   * Board.getGrid(x, y). A read outside the grid answers "filled": the
   * brain's file does not show getGrid, so this is a convention of this
   * model, and the wells scan depends on it.
   */
  predicate Filled(s: BoardState, x: int, y: int)
    requires Shaped(s)
  {
    !(0 <= x < s.width && 0 <= y < s.height) || s.cells[x][y]
  }

  /** Height of one column: the index of its top filled cell plus one, 0 when empty. */
  function ColumnHeight(col: seq<bool>): (h: nat)
    ensures h <= |col|
    ensures h > 0 ==> col[h - 1]
    ensures forall y :: h <= y < |col| ==> !col[y]
  {
    if |col| == 0 then 0
    else if col[|col| - 1] then |col|
    else ColumnHeight(col[..|col| - 1])
  }

  /** Board.getColumnHeight(x). */
  function Height(s: BoardState, x: int): nat
    requires Shaped(s) && 0 <= x < s.width
  {
    ColumnHeight(s.cells[x])
  }

  /**
   * The board invariants the brain relies on: a non-empty width (rateBoard
   * divides by it), every column at or under the high-water mark, and the
   * high-water mark inside the grid.
   */
  predicate Valid(s: BoardState)
  {
    Shaped(s) && s.width > 0 && s.maxHeight <= s.height &&
    forall x :: 0 <= x < s.width ==> Height(s, x) <= s.maxHeight
  }

  /** Every cell of row `y` is filled. */
  predicate FullRow(s: BoardState, y: int)
    requires Shaped(s) && 0 <= y < s.height
  {
    forall x :: 0 <= x < s.width ==> s.cells[x][y]
  }

  /** Number of filled cells of row `y` among columns `0 .. n-1`. */
  function RowWidthUpTo(s: BoardState, y: int, n: nat): (r: nat)
    requires Shaped(s) && n <= s.width
    ensures r <= n
  {
    if n == 0 then 0 else RowWidthUpTo(s, y, n - 1) + (if Filled(s, n - 1, y) then 1 else 0)
  }

  /** Board.getRowWidth(y): the number of filled cells in row `y`. */
  function RowWidth(s: BoardState, y: int): nat
    requires Shaped(s)
  {
    RowWidthUpTo(s, y, s.width)
  }

  /** A row has the full width exactly when every one of its cells is filled. */
  lemma {:induction false} RowWidthUpToAll(s: BoardState, y: int, n: nat)
    requires Shaped(s) && 0 <= y < s.height && n <= s.width
    ensures RowWidthUpTo(s, y, n) == n <==> forall x :: 0 <= x < n ==> s.cells[x][y]
  {
    if n > 0 {
      RowWidthUpToAll(s, y, n - 1);
    }
  }

  lemma RowWidthFull(s: BoardState, y: int)
    requires Shaped(s) && 0 <= y < s.height
    ensures RowWidth(s, y) == s.width <==> FullRow(s, y)
  {
    RowWidthUpToAll(s, y, s.width);
  }

  /** The tallest of the first `n` columns (0 when `n` is 0). */
  function MaxColumnHeight(cells: seq<seq<bool>>, n: nat): (m: nat)
    requires n <= |cells|
    ensures forall x :: 0 <= x < n ==> ColumnHeight(cells[x]) <= m
    ensures m == 0 || exists x :: 0 <= x < n && m == ColumnHeight(cells[x])
  {
    if n == 0 then 0
    else
      var rest := MaxColumnHeight(cells, n - 1);
      var h := ColumnHeight(cells[n - 1]);
      if h > rest then h else rest
  }

  /** The high-water mark of a shaped grid never exceeds its height. */
  lemma MaxColumnHeightBound(s: BoardState)
    requires Shaped(s)
    ensures MaxColumnHeight(s.cells, s.width) <= s.height
  {
    var m := MaxColumnHeight(s.cells, s.width);
    if m != 0 {
      var x :| 0 <= x < s.width && m == ColumnHeight(s.cells[x]);
    }
  }
}
