/**
 * rateBoard: the scans over the board, one method per scanning loop, each
 * proved to compute its feature, and the weighted sum of the features.
 */
module Evaluator {
  import opened Grid
  import opened Features
  import Boards

  /**
   * Clears `areHoles`, then sums the column heights, counts the holes and
   * marks in `areHoles` every row that holds one.
   */
  method ScanHoles(s: BoardState, areHoles: array<bool>) returns (sumHeight: nat, holes: nat)
    requires Valid(s) && areHoles.Length == s.maxHeight
    modifies areHoles
    ensures sumHeight == SumHeights(s, s.width)
    ensures holes == Holes(s)
    ensures forall y :: 0 <= y < areHoles.Length ==> (areHoles[y] <==> y in HoleRows(s))
  {
    for y := 0 to s.maxHeight
      invariant forall y' :: 0 <= y' < y ==> !areHoles[y']
    {
      areHoles[y] := false;
    }
    sumHeight, holes := 0, 0;
    for x := 0 to s.width
      invariant sumHeight == SumHeights(s, x) && holes == HolesUpTo(s, x)
      invariant forall y :: 0 <= y < areHoles.Length ==> (areHoles[y] <==> RowHasHole(s, x, y))
    {
      var colHeight := Height(s, x);
      sumHeight := sumHeight + colHeight;
      ghost var holesBefore := holes;
      var y := colHeight - 2;
      while y >= 0
        invariant -2 <= y <= colHeight - 2 && (y == -2 ==> colHeight == 0)
        invariant holes + EmptyBelow(s, x, if y < -1 then 0 else y + 1) ==
                  holesBefore + EmptyBelow(s, x, HoleRowsOf(s, x))
        invariant forall y' :: 0 <= y' < areHoles.Length ==>
                    (areHoles[y'] <==> RowHasHole(s, x, y') || (y < y' && IsHole(s, x, y')))
      {
        if !Filled(s, x, y) {
          holes := holes + 1;
          areHoles[y] := true;
        }
        y := y - 1;
      }
      forall y' | 0 <= y' < areHoles.Length
        ensures areHoles[y'] <==> RowHasHole(s, x + 1, y')
      {
        if IsHole(s, x, y') {
          assert RowHasHole(s, x + 1, y');
        }
        if RowHasHole(s, x + 1, y') {
          var x' :| 0 <= x' < x + 1 && IsHole(s, x', y');
          if x' < x {
            assert RowHasHole(s, x, y');
          }
        }
      }
    }
  }

  /** Σ (h(x) - averageHeight)² over all columns. */
  method ScanVariance(s: BoardState, averageHeight: nat) returns (sumVariance: nat)
    requires Valid(s)
    ensures sumVariance == SumSquaresUpTo(s, averageHeight, s.width)
  {
    sumVariance := 0;
    for x := 0 to s.width
      invariant sumVariance == SumSquaresUpTo(s, averageHeight, x)
    {
      var colHeight := Height(s, x);
      sumVariance := sumVariance + Square(colHeight - averageHeight);
    }
  }

  /** The lowest column, starting from the board height. */
  method ScanMinHeight(s: BoardState) returns (minHeight: nat)
    requires Valid(s)
    ensures minHeight == MinHeight(s)
  {
    minHeight := s.height;
    for x := 0 to s.width
      invariant minHeight == MinHeightUpTo(s, x)
    {
      var currColHeight := Height(s, x);
      if currColHeight < minHeight {
        minHeight := currColHeight;
      }
    }
  }

  /** How many rows are marked in `areHoles`. */
  method CountRowsWithHoles(areHoles: array<bool>) returns (rowsWithHoles: nat)
    ensures rowsWithHoles == |set y | 0 <= y < areHoles.Length && areHoles[y]|
  {
    rowsWithHoles := 0;
    for y := 0 to areHoles.Length
      invariant rowsWithHoles == |set y' | 0 <= y' < y && areHoles[y']|
    {
      ghost var before := set y' | 0 <= y' < y && areHoles[y'];
      if areHoles[y] {
        rowsWithHoles := rowsWithHoles + 1;
        assert (set y' | 0 <= y' < y + 1 && areHoles[y']) == before + {y};
      } else {
        assert (set y' | 0 <= y' < y + 1 && areHoles[y']) == before;
      }
    }
  }

  /** Rows under the high-water mark whose width is the board width. */
  method ScanCompleteLines(s: BoardState) returns (completeLines: nat)
    requires Valid(s)
    ensures completeLines == CompleteLines(s)
  {
    completeLines := 0;
    for y := 0 to s.maxHeight
      invariant completeLines == CompleteLinesUpTo(s, y)
    {
      var filledRow := RowWidth(s, y);
      if filledRow == s.width {
        completeLines := completeLines + 1;
      }
    }
  }

  /** Σ |h(x) - h(x-1)| over neighbouring columns. */
  method ScanBumpiness(s: BoardState) returns (bumpiness: nat)
    requires Valid(s)
    ensures bumpiness == Bumpiness(s)
  {
    bumpiness := 0;
    for x := 1 to s.width
      invariant bumpiness == BumpinessUpTo(s, x)
    {
      var colHeightPrev: int := Height(s, x - 1);
      var colHeightCurr: int := Height(s, x);
      bumpiness := bumpiness + Abs(colHeightCurr - colHeightPrev);
    }
  }

  /** Empty in-board neighbours of the filled cells under the column heights, by row and by column. */
  method ScanTransitions(s: BoardState) returns (rowTransitions: nat, columnTransitions: nat)
    requires Valid(s)
    ensures rowTransitions == RowTransitions(s)
    ensures columnTransitions == ColumnTransitions(s)
  {
    rowTransitions, columnTransitions := 0, 0;
    for x := 0 to s.width
      invariant rowTransitions == RowTransitionsUpTo(s, x)
      invariant columnTransitions == ColumnTransitionsUpTo(s, x)
    {
      var colHeight := Height(s, x);
      for y := 0 to colHeight
        invariant rowTransitions == RowTransitionsUpTo(s, x) + RowTransitionsIn(s, x, y)
        invariant columnTransitions == ColumnTransitionsUpTo(s, x) + ColumnTransitionsIn(s, x, y)
      {
        if Filled(s, x, y) {
          if x > 0 && !Filled(s, x - 1, y) {
            rowTransitions := rowTransitions + 1;
          }
          if x < s.width - 1 && !Filled(s, x + 1, y) {
            rowTransitions := rowTransitions + 1;
          }
          if y > 0 && !Filled(s, x, y - 1) {
            columnTransitions := columnTransitions + 1;
          }
          if y < s.height - 1 && !Filled(s, x, y + 1) {
            columnTransitions := columnTransitions + 1;
          }
        }
      }
    }
  }

  /** Wells under the high-water mark, with the border tests of the source. */
  method ScanWells(s: BoardState) returns (wells: nat)
    requires Valid(s)
    ensures wells == Wells(s)
  {
    wells := 0;
    for x := 0 to s.width
      invariant wells == WellsUpTo(s, x)
    {
      for y := 0 to s.maxHeight
        invariant wells == WellsUpTo(s, x) + WellsIn(s, x, y)
      {
        var colHeight := Height(s, x);
        if !Filled(s, x, y) && y > colHeight - 1 {
          if x == 0 && Filled(s, x + 1, y) {
            wells := wells + 1;
          }
          if x > 0 && Filled(s, x - 1, y) && Filled(s, x + 1, y) {
            wells := wells + 1;
          }
          if x == s.width - 1 && Filled(s, x - 1, y) && !Filled(s, x, y + 1) {
            wells := wells + 1;
          }
        }
      }
    }
  }

  /** rateBoard: every feature of the board, combined with the brain's weights. */
  method RateBoard(board: Boards.Board) returns (score: real)
    requires board.Valid()
    ensures score == Rating(board.State())
  {
    var s := board.State();
    var width, maxHeight := s.width, s.maxHeight;
    var areHoles := new bool[maxHeight];
    var sumHeight, holes := ScanHoles(s, areHoles);
    var averageHeight := sumHeight / width;
    var sumVariance := ScanVariance(s, averageHeight);
    var minHeight := ScanMinHeight(s);
    var heightDiff := Abs(maxHeight - minHeight);
    var rowsWithHoles := CountRowsWithHoles(areHoles);
    assert (set y | 0 <= y < areHoles.Length && areHoles[y]) == HoleRows(s);
    var completeLines := ScanCompleteLines(s);
    var bumpiness := ScanBumpiness(s);
    var rowTransitions, columnTransitions := ScanTransitions(s);
    var wells := ScanWells(s);
    var features := BoardFeatures(
      holes, maxHeight, averageHeight, bumpiness, completeLines,
      rowTransitions, columnTransitions, wells, rowsWithHoles, heightDiff, sumVariance);
    score := Score(Tuned, features, width);
  }
}
