# Tetris brain: best move and board rating

This project models the decision core of a Tetris-playing brain. It has two
parts:

- `bestMove` is a one-ply exhaustive search. For every rotation of the piece
  and every horizontal offset it drops the piece, places it, clears the filled
  rows, rates the board and undoes the placement. It keeps the lowest-rated
  placement.
- `rateBoard` scans the grid. It counts holes, sums the heights, and computes
  the truncated average, the variance, the height difference, the rows with
  holes, the complete lines, the bumpiness, the row and column transitions and
  the wells. It returns their weighted sum with the brain's fixed weights.

The model is in Dafny, in six modules:

- `Grid` (grid.dfy) is a board snapshot: `cells[x][y]`, column x, row y. It
  defines column height as the index of the top filled cell plus one, row
  width, full rows and the high-water mark `maxHeight`.
- `Rules` (rules.dfy) holds the collaborator operations the brain relies on,
  as pure functions on snapshots: the drop row, `place` with its four result
  codes, and `clearRows`.
- `Boards` (board.dfy) is the mutable `Board` class. It has place, clearRows
  and a single level of undo that brings back the last committed board.
- `Features` (features.dfy) defines every feature as a specification function
  on a snapshot, the weights, and the weighted score. It also holds the
  lemmas about them.
- `Evaluator` (evaluator.dfy) is `rateBoard`. Each scanning loop is a method
  proved to compute its feature, and the `areHoles` array is filled in place.
- `Search` (search.dfy) is `bestMove`, as nested loops over rotations and
  offsets. The candidates are specified by a table of attempts: row k holds,
  for each offset x of rotation k, the move trying it yields, if any.
  `BestMove` is proved to return None exactly when the table has no entry, and
  otherwise the first of the lowest-rated entries in rotation-then-offset
  order. It also leaves the board as it found it.

Conventions taken for what the brain's file does not show:

- `getGrid` outside the grid reads as filled. The wells scan reads the
  neighbours of border cells and the cell above the top row; with this
  convention the interior test at the last column also fires, because its
  missing right neighbour reads as filled.
- The rotation cycle is a non-empty list of rotations, the piece itself first.
- Scores are real numbers. The variance is the exact integer numerator
  Σ (h(x) − averageHeight)² divided by the width. The average height is the
  truncating integer quotient, as in the source. The weights are the source's.

## Model

| member | source | states |
|---|---|---|
| Evaluator.ScanHoles | GracePunzalanQuyenHaBrain.java:91-112 | clears areHoles; the sum of heights is Σ h(x); holes is the number of empty cells under each column's top cell; areHoles[y] holds exactly when row y has such a hole |
| Evaluator.ScanVariance | GracePunzalanQuyenHaBrain.java:117-123 | the sum is Σ (h(x) − averageHeight)² over all columns |
| Evaluator.ScanMinHeight | GracePunzalanQuyenHaBrain.java:129-135 | the result is the least of the board height and every column height |
| Evaluator.CountRowsWithHoles | GracePunzalanQuyenHaBrain.java:142-146 | the count is the number of marked rows of areHoles |
| Evaluator.ScanCompleteLines | GracePunzalanQuyenHaBrain.java:149-155 | the count is the number of rows under maxHeight whose width is the board width |
| Evaluator.ScanBumpiness | GracePunzalanQuyenHaBrain.java:158-166 | the sum is Σ over x in 1 .. width−1 of abs(h(x) − h(x−1)) |
| Evaluator.ScanTransitions | GracePunzalanQuyenHaBrain.java:170-193 | the counts are the empty in-board row and column neighbours of the filled cells under each column's height |
| Evaluator.ScanWells | GracePunzalanQuyenHaBrain.java:197-220 | the count is the sum of the three border and interior well tests over every cell under maxHeight |
| Evaluator.RateBoard | GracePunzalanQuyenHaBrain.java:72-229 | the returned value is the brain's weighted score of the features of the board it was given |
| Features.MinHeightUpTo | GracePunzalanQuyenHaBrain.java:129-135 | the minimum is at most the board height and every column height, and is one of them |
| Features.FlatHeightDiff | GracePunzalanQuyenHaBrain.java:129-138 | on a flat board of height h the minimum is h and heightDiff is maxHeight − h |
| Features.HoleIsCovered | GracePunzalanQuyenHaBrain.java:104-108 | a cell is counted as a hole exactly when it is empty and some cell above it in its column is filled |
| Features.RowsWithHolesBound | GracePunzalanQuyenHaBrain.java:99-112 | rowsWithHoles is at most holes and at most maxHeight |
| Features.NoCompleteLinesAfterClear | GracePunzalanQuyenHaBrain.java:41 | on the board rated after clearRows the complete-lines count is 0 |
| Features.BumpinessZeroIffFlat | GracePunzalanQuyenHaBrain.java:158-166 | bumpiness is 0 exactly when every column has the height of column 0 |
| Features.TransitionsBound | GracePunzalanQuyenHaBrain.java:170-193 | rowTransitions + columnTransitions is at most 4 times the filled cells under the column heights |
| Features.WellAtBound | GracePunzalanQuyenHaBrain.java:201-217 | a cell adds at most 2 wells, and adds any only when it is empty and above its column's height |
| Features.InteriorWell | GracePunzalanQuyenHaBrain.java:209-211 | an interior cell adds one well exactly when it is above its column and both neighbours are filled |
| Features.LeftBorderWell | GracePunzalanQuyenHaBrain.java:204-206 | a cell of column 0 adds one well exactly when it is above its column and its right neighbour is filled |
| Features.RightBorderWell | GracePunzalanQuyenHaBrain.java:209-217 | a cell of the last column next to a filled cell adds one well, and a second one when the cell above it is empty |
| Features.WellsBound | GracePunzalanQuyenHaBrain.java:197-220 | wells is at most twice width × maxHeight |
| Features.ScoreIgnoresLinesAndDiff | GracePunzalanQuyenHaBrain.java:222-226 | the score does not depend on completeLines or heightDiff |
| Features.ScoreUnitCosts | GracePunzalanQuyenHaBrain.java:222-226 | one more hole adds exactly 93 to the score, one more unit of bumpiness exactly 10 |
| Features.ScaledScoreIsInteger | GracePunzalanQuyenHaBrain.java:222-226 | width × score is the integer width × (integer terms) + Σ (h − avg)² |
| Features.AverageTruncates | GracePunzalanQuyenHaBrain.java:115 | the average height is the truncated quotient: average × width ≤ the sum of the heights < (average + 1) × width |
| Features.AverageOfSevenOverThree | GracePunzalanQuyenHaBrain.java:115 | as a consequence, heights summing to 7 over 3 columns average 2 |
| Grid.ColumnHeight | GracePunzalanQuyenHaBrain.java:101 | the column height is the top filled cell plus one: that cell is filled and none above it is |
| Grid.RowWidthFull | GracePunzalanQuyenHaBrain.java:150-151 | a row's width equals the board width exactly when the row is full |
| Grid.MaxColumnHeight | GracePunzalanQuyenHaBrain.java:77 | the high-water mark of a grid bounds every column height and is one of them |
| Rules.DropHeightRests | GracePunzalanQuyenHaBrain.java:37 | the drop row is at least 0, clears every column the piece covers, and is 0 or set by one of the piece's cells |
| Rules.PlaceReports | GracePunzalanQuyenHaBrain.java:39-40 | place reports out of bounds exactly when a cell leaves the grid and then changes nothing, bad exactly when a cell lands on a filled one, row filled only when some row that was not full before now is, and ok only when every full row was full before; inside the grid it fills exactly the piece's cells |
| Rules.ClearRowsLeavesNoFullRow | GracePunzalanQuyenHaBrain.java:41 | after clearRows no row is full |
| Boards.Board.Place | GracePunzalanQuyenHaBrain.java:39 | place backs up the committed board and leaves the placed board, uncommitted |
| Boards.Board.ClearRows | GracePunzalanQuyenHaBrain.java:41 | clearRows keeps the backup and leaves the board without its full rows |
| Boards.Board.Undo | GracePunzalanQuyenHaBrain.java:52 | undo brings back the board of the last commit, committed |
| Search.TryPlacement | GracePunzalanQuyenHaBrain.java:37-53 | one try yields the attempt of that rotation and offset: nothing when the drop row is at or above yBound or place refuses; the board ends as it began |
| Search.AttemptIsLegal | GracePunzalanQuyenHaBrain.java:36-40 | an accepted attempt lies inside the grid, covers no filled cell, lands at the drop row and stays under the height limit; for a piece whose cells lie in its bounding box, every placed cell is under the limit |
| Search.AttemptTooHigh | GracePunzalanQuyenHaBrain.java:38 | a drop row at or above yBound yields nothing |
| Search.CandidatesMembers | GracePunzalanQuyenHaBrain.java:31-57 | a move is a candidate of the search exactly when some rotation at some offset 0 .. width − pieceWidth yields it |
| Search.RotationOrdered | GracePunzalanQuyenHaBrain.java:36 | the candidates of one rotation are of that rotation, at tried offsets, in strictly increasing offset order |
| Search.NoCandidatesWhenTooHigh | GracePunzalanQuyenHaBrain.java:36-38 | when every drop row would stick up past the limit there is no candidate |
| Search.TracksStep | GracePunzalanQuyenHaBrain.java:45-50 | replacing the best only on a strictly lower score keeps it the first of the lowest |
| Search.Consider | GracePunzalanQuyenHaBrain.java:45-50 | the candidate replaces the best exactly when there is none yet or it scores strictly lower |
| Search.SweepRotation | GracePunzalanQuyenHaBrain.java:35-55 | the inner loop sees the candidates of one rotation, in offset order, and keeps the first lowest; the board ends as it began |
| Search.BestMove | GracePunzalanQuyenHaBrain.java:20-69 | None exactly when there is no candidate; otherwise a candidate scoring at most every candidate and strictly less than every earlier one; the board ends as it began |

## Left out

- Board.java and Piece.java are not part of this model. The Rules functions
  and the Board class are one simple way to meet the contracts the brain
  relies on: the drop row, the place result codes, clearRows, and undo
  bringing back the committed board. That out-of-grid cells read as filled is
  a convention of this model.
- Grid.Valid: requires a board at least one column wide. On a board of width
  0 the source's rateBoard divides by zero at line 115 and throws, and
  bestMove returns null for any piece of nonzero width; the model does not
  cover that board.
- Search.BestMove: returns the first lowest candidate whatever its score. The
  source starts bestScore at 1e20, so it would also return null when every
  candidate rates at 1e20 or more; the model has no such sentinel.
- Evaluator.RateBoard: computes with unbounded integers and exact reals.
  Java's 32-bit int counters and the double rounding of Math.pow, of the
  division by the width and of the final weighted sum are not modelled.
- Reuse of the caller's Move object is not modelled: BestMove returns the
  best placement as a value.
- The rotation loop ending on object identity with the first piece is replaced
  by a finite list of rotations.
- In the source the comparison with the best score happens before undo; in
  the model it happens after TryPlacement has undone the placement. The order
  does not change any value compared or kept.
