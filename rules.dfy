/**
 * The Board and Piece collaborators of the brain, as pure functions on a
 * board snapshot: the drop row of a piece, placing a piece and clearing the
 * full rows. The brain relies only on the contracts stated here; the bodies
 * are one straightforward way to meet them.
 */
module Rules {
  import opened Grid

  /** One rotation of a piece: its bounding box and its filled cells, relative to its lower-left corner. */
  datatype Piece = Piece(width: nat, height: nat, body: seq<(int, int)>)

  /** Every cell of the piece lies inside its bounding box. */
  predicate WellFormed(p: Piece)
  {
    forall i :: 0 <= i < |p.body| ==> 0 <= p.body[i].0 < p.width && 0 <= p.body[i].1 < p.height
  }

  /** What Board.place reports; Code() gives the board's integer constants. */
  datatype PlaceResult = PlaceOk | PlaceRowFilled | PlaceOutBounds | PlaceBad
  {
    function Code(): int
    {
      match this
      case PlaceOk => 0
      case PlaceRowFilled => 1
      case PlaceOutBounds => 2
      case PlaceBad => 3
    }
  }

  /** Board.PLACE_ROW_FILLED: results with a code at most this one are legal placements. */
  const PLACE_ROW_FILLED: int := 1

  /**
   * The resting row of the cells `body` dropped at offset `x`: the highest
   * of 0 and, over the cells above the grid's columns, column height minus
   * the cell's row in the piece.
   */
  function DropOver(s: BoardState, body: seq<(int, int)>, x: int): (y: int)
    requires Shaped(s)
    ensures y >= 0
  {
    if |body| == 0 then 0
    else
      var rest := DropOver(s, body[..|body| - 1], x);
      var c := body[|body| - 1];
      if 0 <= x + c.0 < s.width && Height(s, x + c.0) - c.1 > rest then Height(s, x + c.0) - c.1
      else rest
  }

  /**
   * The drop row is the lowest row at which the piece clears every column
   * it covers, and no lower than row 0: either 0 or set by one of its cells.
   */
  lemma {:induction false} DropOverRests(s: BoardState, body: seq<(int, int)>, x: int)
    requires Shaped(s)
    ensures forall i :: 0 <= i < |body| && 0 <= x + body[i].0 < s.width ==>
              Height(s, x + body[i].0) - body[i].1 <= DropOver(s, body, x)
    ensures var y := DropOver(s, body, x);
            y == 0 || exists i :: 0 <= i < |body| && 0 <= x + body[i].0 < s.width &&
                                  y == Height(s, x + body[i].0) - body[i].1
  {
    if |body| > 0 {
      var init := body[..|body| - 1];
      DropOverRests(s, init, x);
      assert forall i :: 0 <= i < |init| ==> init[i] == body[i];
      var y := DropOver(s, body, x);
      if y != 0 && y != DropOver(s, init, x) {
        assert y == Height(s, x + body[|body| - 1].0) - body[|body| - 1].1;
      } else if y != 0 {
        var i :| 0 <= i < |init| && 0 <= x + init[i].0 < s.width && y == Height(s, x + init[i].0) - init[i].1;
        assert body[i] == init[i];
      }
    }
  }

  /** Board.dropHeight(piece, x). */
  function DropHeight(s: BoardState, p: Piece, x: int): int
    requires Shaped(s)
  {
    DropOver(s, p.body, x)
  }

  lemma DropHeightRests(s: BoardState, p: Piece, x: int)
    requires Shaped(s)
    ensures DropHeight(s, p, x) >= 0
    ensures forall i :: 0 <= i < |p.body| && 0 <= x + p.body[i].0 < s.width ==>
              Height(s, x + p.body[i].0) - p.body[i].1 <= DropHeight(s, p, x)
    ensures var y := DropHeight(s, p, x);
            y == 0 || exists i :: 0 <= i < |p.body| && 0 <= x + p.body[i].0 < s.width &&
                                  y == Height(s, x + p.body[i].0) - p.body[i].1
  {
    DropOverRests(s, p.body, x);
  }

  /** Every cell of `p` placed with its corner at (x, y) lies inside the grid. */
  predicate InBounds(s: BoardState, p: Piece, x: int, y: int)
  {
    forall i :: 0 <= i < |p.body| ==> 0 <= x + p.body[i].0 < s.width && 0 <= y + p.body[i].1 < s.height
  }

  /** Some cell of `p` placed at (x, y) lands on a filled cell. */
  predicate Overlaps(s: BoardState, p: Piece, x: int, y: int)
    requires Shaped(s) && InBounds(s, p, x, y)
  {
    exists i :: 0 <= i < |p.body| && s.cells[x + p.body[i].0][y + p.body[i].1]
  }

  /** The grid with the cells of `p` at (x, y) filled in. */
  function DrawnCells(s: BoardState, p: Piece, x: int, y: int): (c: seq<seq<bool>>)
    requires Shaped(s)
    ensures |c| == s.width && forall i :: 0 <= i < s.width ==> |c[i]| == s.height
  {
    seq(s.width, i requires 0 <= i < s.width =>
      seq(s.height, j requires 0 <= j < s.height => s.cells[i][j] || (i - x, j - y) in p.body))
  }

  /** A cell is filled after drawing when it was filled before or the piece covers it. */
  lemma DrawnCellsAt(s: BoardState, p: Piece, x: int, y: int, i: int, j: int)
    requires Shaped(s) && 0 <= i < s.width && 0 <= j < s.height
    ensures DrawnCells(s, p, x, y)[i][j] == (s.cells[i][j] || (i - x, j - y) in p.body)
  {
  }

  /** The board after drawing `p` at (x, y); the high-water mark takes in the new columns. */
  function Drawn(s: BoardState, p: Piece, x: int, y: int): (r: BoardState)
    requires Valid(s)
    ensures Valid(r) && r.width == s.width && r.height == s.height
  {
    var c := DrawnCells(s, p, x, y);
    var m := MaxColumnHeight(c, s.width);
    MaxColumnHeightBound(BoardState(s.width, s.height, c, m));
    BoardState(s.width, s.height, c, if m > s.maxHeight then m else s.maxHeight)
  }

  /**
   * Board.place(piece, x, y): out of bounds leaves the board alone;
   * otherwise the piece is drawn, and the result says whether it landed on
   * a filled cell or completed a row that was not full before.
   */
  function Place(s: BoardState, p: Piece, x: int, y: int): (r: (PlaceResult, BoardState))
    requires Valid(s)
    ensures Valid(r.1) && r.1.width == s.width && r.1.height == s.height
  {
    if !InBounds(s, p, x, y) then (PlaceOutBounds, s)
    else
      var d := Drawn(s, p, x, y);
      if Overlaps(s, p, x, y) then (PlaceBad, d)
      else if exists row :: 0 <= row < s.height && FullRow(d, row) && !FullRow(s, row) then (PlaceRowFilled, d)
      else (PlaceOk, d)
  }

  /**
   * What place reports: out of bounds exactly when a cell leaves the grid,
   * which leaves the board alone; a bad placement exactly when a cell lands
   * on a filled one; otherwise whether some row became full. Any placement
   * inside the grid fills exactly the piece's cells and changes no other.
   */
  lemma PlaceReports(s: BoardState, p: Piece, x: int, y: int)
    requires Valid(s)
    ensures var (result, r) := Place(s, p, x, y);
      (result == PlaceOutBounds <==> !InBounds(s, p, x, y)) &&
      (result == PlaceOutBounds ==> r == s) &&
      (result == PlaceBad <==> InBounds(s, p, x, y) && Overlaps(s, p, x, y)) &&
      (result == PlaceRowFilled ==> exists row :: 0 <= row < s.height && FullRow(r, row) && !FullRow(s, row)) &&
      (result == PlaceOk ==> forall row :: 0 <= row < s.height && FullRow(r, row) ==> FullRow(s, row))
    ensures var (result, r) := Place(s, p, x, y);
      result != PlaceOutBounds ==>
        forall i, j :: 0 <= i < s.width && 0 <= j < s.height ==>
          r.cells[i][j] == (s.cells[i][j] || (i - x, j - y) in p.body)
  {
    if InBounds(s, p, x, y) {
      forall i, j | 0 <= i < s.width && 0 <= j < s.height
        ensures Place(s, p, x, y).1.cells[i][j] == (s.cells[i][j] || (i - x, j - y) in p.body)
      {
        DrawnCellsAt(s, p, x, y, i, j);
      }
    }
  }

  /** Number of rows among `0 .. n-1` that are not full. */
  function KeptCount(s: BoardState, n: nat): (k: nat)
    requires Shaped(s) && n <= s.height
    ensures k <= n
  {
    if n == 0 then 0 else KeptCount(s, n - 1) + (if FullRow(s, n - 1) then 0 else 1)
  }

  /** The cells of column `x` at the rows among `0 .. n-1` that are not full, bottom first. */
  function KeptCells(s: BoardState, x: int, n: nat): (c: seq<bool>)
    requires Shaped(s) && 0 <= x < s.width && n <= s.height
    ensures |c| == KeptCount(s, n)
  {
    if n == 0 then []
    else KeptCells(s, x, n - 1) + (if FullRow(s, n - 1) then [] else [s.cells[x][n - 1]])
  }

  /** Column `x` once the full rows are gone: the kept cells, then empty cells up to the top. */
  function ClearedColumn(s: BoardState, x: int): (c: seq<bool>)
    requires Shaped(s) && 0 <= x < s.width
    ensures |c| == s.height
  {
    KeptCells(s, x, s.height) + seq(s.height - KeptCount(s, s.height), _ => false)
  }

  /** Board.clearRows(): remove every full row, moving the rows above it down. */
  function ClearRows(s: BoardState): (r: BoardState)
    requires Valid(s)
    ensures Valid(r) && r.width == s.width && r.height == s.height
  {
    var c := seq(s.width, x requires 0 <= x < s.width => ClearedColumn(s, x));
    var m := MaxColumnHeight(c, s.width);
    var r := BoardState(s.width, s.height, c, m);
    MaxColumnHeightBound(r);
    r
  }

  /** After clearRows no row is full. */
  lemma ClearRowsLeavesNoFullRow(s: BoardState)
    requires Valid(s)
    ensures forall row :: 0 <= row < s.height ==> !FullRow(ClearRows(s), row)
  {
    NoFullRowAfterClear(s, ClearRows(s));
  }

  /** The row of the original board that ends up at row `j` of the kept rows among `0 .. n-1`. */
  function KeptRow(s: BoardState, n: nat, j: nat): (r: nat)
    requires Shaped(s) && n <= s.height && j < KeptCount(s, n)
    ensures r < n && !FullRow(s, r)
  {
    if FullRow(s, n - 1) || j < KeptCount(s, n - 1) then KeptRow(s, n - 1, j) else n - 1
  }

  /** Row `j` of every kept column comes from the same original row. */
  lemma {:induction false} KeptCellsAt(s: BoardState, x: int, n: nat, j: nat)
    requires Shaped(s) && 0 <= x < s.width && n <= s.height && j < KeptCount(s, n)
    ensures KeptCells(s, x, n)[j] == s.cells[x][KeptRow(s, n, j)]
  {
    if !(FullRow(s, n - 1) || j < KeptCount(s, n - 1)) {
      assert j == KeptCount(s, n - 1);
    } else {
      KeptCellsAt(s, x, n - 1, j);
    }
  }

  lemma NoFullRowAfterClear(s: BoardState, r: BoardState)
    requires Valid(s) && Shaped(r) && r.width == s.width && r.height == s.height
    requires forall x :: 0 <= x < s.width ==> r.cells[x] == ClearedColumn(s, x)
    ensures forall row :: 0 <= row < r.height ==> !FullRow(r, row)
  {
    forall row | 0 <= row < r.height
      ensures !FullRow(r, row)
    {
      var k := KeptCount(s, s.height);
      if row < k {
        var orig := KeptRow(s, s.height, row);
        var x :| 0 <= x < s.width && !s.cells[x][orig];
        KeptCellsAt(s, x, s.height, row);
        assert !r.cells[x][row];
      } else {
        assert !r.cells[0][row];
      }
    }
  }
}
