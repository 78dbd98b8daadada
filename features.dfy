/**
 * The structural features rateBoard measures, each as a specification on a
 * board snapshot, and the weighted score built from them. The scanning
 * loops of the evaluator are proved to compute exactly these.
 */
module Features {
  import opened Grid
  import opened Rules

  // ---------------------------------------------------------------- heights

  /** Sum of the heights of columns `0 .. n-1`. */
  ghost function SumHeights(s: BoardState, n: nat): nat
    requires Shaped(s) && n <= s.width
  {
    if n == 0 then 0 else SumHeights(s, n - 1) + Height(s, n - 1)
  }

  /** The truncated mean column height, as the source's integer division computes it. */
  ghost function AverageHeight(s: BoardState): nat
    requires Valid(s)
  {
    SumHeights(s, s.width) / s.width
  }

  /** Sum over columns `0 .. n-1` of the squared distance of the height from `avg`. */
  ghost function SumSquaresUpTo(s: BoardState, avg: int, n: nat): nat
    requires Shaped(s) && n <= s.width
  {
    if n == 0 then 0
    else SumSquaresUpTo(s, avg, n - 1) + Square(Height(s, n - 1) - avg)
  }

  /** Math.pow(d, 2) on an integral value. */
  function Square(d: int): nat
  {
    Abs(d) * Abs(d)
  }

  /** Numerator of the height variance: Σ (h(x) - averageHeight)². */
  ghost function SumSquares(s: BoardState): nat
    requires Valid(s)
  {
    SumSquaresUpTo(s, AverageHeight(s), s.width)
  }

  /** The smallest of the board height and the heights of columns `0 .. n-1`. */
  ghost function MinHeightUpTo(s: BoardState, n: nat): (m: nat)
    requires Valid(s) && n <= s.width
    ensures m <= s.height
    ensures forall x :: 0 <= x < n ==> m <= Height(s, x)
    ensures m == s.height || exists x :: 0 <= x < n && m == Height(s, x)
  {
    if n == 0 then s.height
    else
      var rest := MinHeightUpTo(s, n - 1);
      if Height(s, n - 1) < rest then Height(s, n - 1) else rest
  }

  ghost function MinHeight(s: BoardState): nat
    requires Valid(s)
  {
    MinHeightUpTo(s, s.width)
  }

  /** Math.abs on integers. */
  function Abs(d: int): nat
  {
    if d < 0 then -d else d
  }

  /** heightDiff: |maxHeight - minHeight|. */
  ghost function HeightDiff(s: BoardState): nat
    requires Valid(s)
  {
    Abs(s.maxHeight - MinHeight(s))
  }

  /** A flat board of height `h` has minimum height `h` and heightDiff `maxHeight - h`. */
  lemma FlatHeightDiff(s: BoardState, h: nat)
    requires Valid(s)
    requires forall x :: 0 <= x < s.width ==> Height(s, x) == h
    ensures MinHeight(s) == h
    ensures HeightDiff(s) == s.maxHeight - h
  {
    assert Height(s, 0) == h;
  }

  // ------------------------------------------------------------------ holes

  /** Rows `0 .. HoleRowsOf(s, x)-1` of column `x` are where its holes can be: below its top cell. */
  ghost function HoleRowsOf(s: BoardState, x: int): nat
    requires Shaped(s) && 0 <= x < s.width
  {
    if Height(s, x) >= 1 then Height(s, x) - 1 else 0
  }

  /** Cell (x, y) is a hole. */
  ghost predicate IsHole(s: BoardState, x: int, y: int)
    requires Shaped(s)
  {
    0 <= x < s.width && 0 <= y < HoleRowsOf(s, x) && !s.cells[x][y]
  }

  /** A hole is exactly an empty cell with a filled cell somewhere above it in its column. */
  lemma HoleIsCovered(s: BoardState, x: int, y: int)
    requires Shaped(s) && 0 <= x < s.width && 0 <= y < s.height
    ensures IsHole(s, x, y) <==> !s.cells[x][y] && exists t :: y < t < s.height && s.cells[x][t]
  {
    var h := Height(s, x);
    if IsHole(s, x, y) {
      assert y < h - 1 < s.height && s.cells[x][h - 1];
    }
    if !s.cells[x][y] && exists t :: y < t < s.height && s.cells[x][t] {
      var t :| y < t < s.height && s.cells[x][t];
      assert t < h;
    }
  }

  /** Empty cells of column `x` among rows `0 .. k-1`. */
  ghost function EmptyBelow(s: BoardState, x: int, k: nat): nat
    requires Shaped(s) && 0 <= x < s.width && k <= s.height
  {
    if k == 0 then 0 else EmptyBelow(s, x, k - 1) + (if s.cells[x][k - 1] then 0 else 1)
  }

  /** Holes in columns `0 .. n-1`. */
  ghost function HolesUpTo(s: BoardState, n: nat): nat
    requires Shaped(s) && n <= s.width
  {
    if n == 0 then 0 else HolesUpTo(s, n - 1) + EmptyBelow(s, n - 1, HoleRowsOf(s, n - 1))
  }

  ghost function Holes(s: BoardState): nat
    requires Shaped(s)
  {
    HolesUpTo(s, s.width)
  }

  /** The rows, among `0 .. maxHeight-1`, holding a hole in one of the columns `0 .. n-1`. */
  ghost function HoleRowsUpTo(s: BoardState, n: nat): set<int>
    requires Shaped(s)
  {
    set y | 0 <= y < s.maxHeight && RowHasHole(s, n, y)
  }

  /** Row `y` holds a hole in one of the columns `0 .. n-1`. */
  ghost predicate RowHasHole(s: BoardState, n: nat, y: int)
    requires Shaped(s)
  {
    exists x :: 0 <= x < n && IsHole(s, x, y)
  }

  /** rowsWithHoles counts these rows. */
  ghost function HoleRows(s: BoardState): set<int>
    requires Shaped(s)
  {
    HoleRowsUpTo(s, s.width)
  }

  /** The rows of holes of one column. */
  ghost function ColumnHoleSet(s: BoardState, x: int, k: nat): set<int>
    requires Shaped(s) && 0 <= x < s.width && k <= s.height
  {
    set y | 0 <= y < k && !s.cells[x][y]
  }

  lemma {:induction false} ColumnHoleSetSize(s: BoardState, x: int, k: nat)
    requires Shaped(s) && 0 <= x < s.width && k <= s.height
    ensures |ColumnHoleSet(s, x, k)| == EmptyBelow(s, x, k)
  {
    if k > 0 {
      ColumnHoleSetSize(s, x, k - 1);
      var prev := ColumnHoleSet(s, x, k - 1);
      if s.cells[x][k - 1] {
        assert ColumnHoleSet(s, x, k) == prev;
      } else {
        assert ColumnHoleSet(s, x, k) == prev + {k - 1};
        assert k - 1 !in prev;
      }
    }
  }

  lemma {:induction false} HoleRowsUpToBound(s: BoardState, n: nat)
    requires Valid(s) && n <= s.width
    ensures |HoleRowsUpTo(s, n)| <= HolesUpTo(s, n)
  {
    if n > 0 {
      HoleRowsUpToBound(s, n - 1);
      var x := n - 1;
      var col := ColumnHoleSet(s, x, HoleRowsOf(s, x));
      ColumnHoleSetSize(s, x, HoleRowsOf(s, x));
      assert HoleRowsUpTo(s, n) <= HoleRowsUpTo(s, n - 1) + col by {
        forall y | y in HoleRowsUpTo(s, n)
          ensures y in HoleRowsUpTo(s, n - 1) + col
        {
          var x' :| 0 <= x' < n && IsHole(s, x', y);
          if x' < n - 1 {
            assert y in HoleRowsUpTo(s, n - 1);
          }
        }
      }
      SubsetSize(HoleRowsUpTo(s, n), HoleRowsUpTo(s, n - 1) + col);
    }
  }

  /** A subset is no larger than its superset. */
  lemma SubsetSize(a: set<int>, b: set<int>)
    requires a <= b
    ensures |a| <= |b|
  {
    assert b == a + (b - a);
  }

  /** The first `n` rows. */
  ghost function Rows(n: nat): (r: set<int>)
    ensures forall y :: y in r <==> 0 <= y < n
    ensures |r| == n
  {
    if n == 0 then {} else Rows(n - 1) + {n - 1}
  }

  /** rowsWithHoles never exceeds holes, nor the number of rows scanned. */
  lemma RowsWithHolesBound(s: BoardState)
    requires Valid(s)
    ensures |HoleRows(s)| <= Holes(s)
    ensures |HoleRows(s)| <= s.maxHeight
  {
    HoleRowsUpToBound(s, s.width);
    SubsetSize(HoleRows(s), Rows(s.maxHeight));
  }

  // --------------------------------------------------------- complete lines

  /** Rows among `0 .. n-1` at the full width. */
  ghost function CompleteLinesUpTo(s: BoardState, n: nat): (c: nat)
    requires Shaped(s)
    ensures c <= n
  {
    if n == 0 then 0 else CompleteLinesUpTo(s, n - 1) + (if RowWidth(s, n - 1) == s.width then 1 else 0)
  }

  ghost function CompleteLines(s: BoardState): nat
    requires Shaped(s)
  {
    CompleteLinesUpTo(s, s.maxHeight)
  }

  lemma {:induction false} NoCompleteLinesUpTo(s: BoardState, n: nat)
    requires Valid(s) && n <= s.height
    requires forall row :: 0 <= row < s.height ==> !FullRow(s, row)
    ensures CompleteLinesUpTo(s, n) == 0
  {
    if n > 0 {
      NoCompleteLinesUpTo(s, n - 1);
      RowWidthFull(s, n - 1);
    }
  }

  /** Right after clearRows there is no complete line left to count. */
  lemma NoCompleteLinesAfterClear(s: BoardState)
    requires Valid(s)
    ensures CompleteLines(ClearRows(s)) == 0
  {
    var r := ClearRows(s);
    ClearRowsLeavesNoFullRow(s);
    NoCompleteLinesUpTo(r, r.maxHeight);
  }

  // -------------------------------------------------------------- bumpiness

  /** Σ over x in 1 .. n-1 of |h(x) - h(x-1)|. */
  ghost function BumpinessUpTo(s: BoardState, n: nat): nat
    requires Shaped(s) && n <= s.width
  {
    if n <= 1 then 0
    else
      BumpinessUpTo(s, n - 1) + Abs(Height(s, n - 1) - Height(s, n - 2))
  }

  ghost function Bumpiness(s: BoardState): nat
    requires Shaped(s)
  {
    BumpinessUpTo(s, s.width)
  }

  lemma {:induction false} BumpinessUpToZero(s: BoardState, n: nat)
    requires Shaped(s) && 0 < n <= s.width
    ensures BumpinessUpTo(s, n) == 0 <==> forall x :: 0 <= x < n ==> Height(s, x) == Height(s, 0)
  {
    if n > 1 {
      BumpinessUpToZero(s, n - 1);
    }
  }

  /** Bumpiness is zero exactly on a flat board. */
  lemma BumpinessZeroIffFlat(s: BoardState)
    requires Valid(s)
    ensures Bumpiness(s) == 0 <==> forall x :: 0 <= x < s.width ==> Height(s, x) == Height(s, 0)
  {
    BumpinessUpToZero(s, s.width);
  }

  // ------------------------------------------------------------ transitions

  /** Empty in-board cells beside the filled cell (x, y) in its row. */
  ghost function RowTransitionsAt(s: BoardState, x: int, y: int): nat
    requires Shaped(s) && 0 <= x < s.width && 0 <= y < s.height
  {
    if s.cells[x][y] then
      (if x > 0 && !Filled(s, x - 1, y) then 1 else 0) +
      (if x < s.width - 1 && !Filled(s, x + 1, y) then 1 else 0)
    else 0
  }

  /** Empty in-board cells below and above the filled cell (x, y) in its column. */
  ghost function ColumnTransitionsAt(s: BoardState, x: int, y: int): nat
    requires Shaped(s) && 0 <= x < s.width && 0 <= y < s.height
  {
    if s.cells[x][y] then
      (if y > 0 && !Filled(s, x, y - 1) then 1 else 0) +
      (if y < s.height - 1 && !Filled(s, x, y + 1) then 1 else 0)
    else 0
  }

  /** Row transitions of the cells of column `x` at rows `0 .. k-1`. */
  ghost function RowTransitionsIn(s: BoardState, x: int, k: nat): nat
    requires Shaped(s) && 0 <= x < s.width && k <= s.height
  {
    if k == 0 then 0 else RowTransitionsIn(s, x, k - 1) + RowTransitionsAt(s, x, k - 1)
  }

  ghost function ColumnTransitionsIn(s: BoardState, x: int, k: nat): nat
    requires Shaped(s) && 0 <= x < s.width && k <= s.height
  {
    if k == 0 then 0 else ColumnTransitionsIn(s, x, k - 1) + ColumnTransitionsAt(s, x, k - 1)
  }

  /** Row transitions of columns `0 .. n-1`, each scanned up to its height. */
  ghost function RowTransitionsUpTo(s: BoardState, n: nat): nat
    requires Shaped(s) && n <= s.width
  {
    if n == 0 then 0 else RowTransitionsUpTo(s, n - 1) + RowTransitionsIn(s, n - 1, Height(s, n - 1))
  }

  ghost function ColumnTransitionsUpTo(s: BoardState, n: nat): nat
    requires Shaped(s) && n <= s.width
  {
    if n == 0 then 0 else ColumnTransitionsUpTo(s, n - 1) + ColumnTransitionsIn(s, n - 1, Height(s, n - 1))
  }

  ghost function RowTransitions(s: BoardState): nat
    requires Shaped(s)
  {
    RowTransitionsUpTo(s, s.width)
  }

  ghost function ColumnTransitions(s: BoardState): nat
    requires Shaped(s)
  {
    ColumnTransitionsUpTo(s, s.width)
  }

  /** Filled cells of column `x` at rows `0 .. k-1`. */
  ghost function FilledIn(s: BoardState, x: int, k: nat): nat
    requires Shaped(s) && 0 <= x < s.width && k <= s.height
  {
    if k == 0 then 0 else FilledIn(s, x, k - 1) + (if s.cells[x][k - 1] then 1 else 0)
  }

  /** Filled cells under the column heights of columns `0 .. n-1`. */
  ghost function FilledUpTo(s: BoardState, n: nat): nat
    requires Shaped(s) && n <= s.width
  {
    if n == 0 then 0 else FilledUpTo(s, n - 1) + FilledIn(s, n - 1, Height(s, n - 1))
  }

  lemma {:induction false} TransitionsInBound(s: BoardState, x: int, k: nat)
    requires Shaped(s) && 0 <= x < s.width && k <= s.height
    ensures RowTransitionsIn(s, x, k) <= 2 * FilledIn(s, x, k)
    ensures ColumnTransitionsIn(s, x, k) <= 2 * FilledIn(s, x, k)
  {
    if k > 0 {
      TransitionsInBound(s, x, k - 1);
    }
  }

  lemma {:induction false} TransitionsUpToBound(s: BoardState, n: nat)
    requires Shaped(s) && n <= s.width
    ensures RowTransitionsUpTo(s, n) <= 2 * FilledUpTo(s, n)
    ensures ColumnTransitionsUpTo(s, n) <= 2 * FilledUpTo(s, n)
  {
    if n > 0 {
      TransitionsUpToBound(s, n - 1);
      TransitionsInBound(s, n - 1, Height(s, n - 1));
    }
  }

  /** Every counted transition belongs to a filled cell under the heights, at most four per cell. */
  lemma TransitionsBound(s: BoardState)
    requires Shaped(s)
    ensures RowTransitions(s) + ColumnTransitions(s) <= 4 * FilledUpTo(s, s.width)
  {
    TransitionsUpToBound(s, s.width);
  }

  // ------------------------------------------------------------------ wells

  /**
   * What the wells scan adds for cell (x, y): at the left border the border
   * stands in for the left neighbour; the interior test also runs at the
   * right border, where the missing right neighbour reads as filled; the
   * right-border test in addition wants the cell above empty.
   */
  ghost function WellAt(s: BoardState, x: int, y: int): nat
    requires Shaped(s) && 0 <= x < s.width
  {
    if !Filled(s, x, y) && y > Height(s, x) - 1 then
      (if x == 0 && Filled(s, x + 1, y) then 1 else 0) +
      (if x > 0 && Filled(s, x - 1, y) && Filled(s, x + 1, y) then 1 else 0) +
      (if x == s.width - 1 && Filled(s, x - 1, y) && !Filled(s, x, y + 1) then 1 else 0)
    else 0
  }

  /** Wells of column `x` at rows `0 .. k-1`. */
  ghost function WellsIn(s: BoardState, x: int, k: nat): nat
    requires Shaped(s) && 0 <= x < s.width
  {
    if k == 0 then 0 else WellsIn(s, x, k - 1) + WellAt(s, x, k - 1)
  }

  /** Wells of columns `0 .. n-1`, rows `0 .. maxHeight-1`. */
  ghost function WellsUpTo(s: BoardState, n: nat): nat
    requires Shaped(s) && n <= s.width
  {
    if n == 0 then 0 else WellsUpTo(s, n - 1) + WellsIn(s, n - 1, s.maxHeight)
  }

  ghost function Wells(s: BoardState): nat
    requires Shaped(s)
  {
    WellsUpTo(s, s.width)
  }

  /** Only empty cells above the column's height count, and each at most twice. */
  lemma WellAtBound(s: BoardState, x: int, y: int)
    requires Shaped(s) && 0 <= x < s.width && 0 <= y < s.height
    ensures WellAt(s, x, y) <= 2
    ensures WellAt(s, x, y) > 0 ==> y >= Height(s, x) && !s.cells[x][y]
  {
  }

  /** An interior cell is a well exactly when it is above its column and both neighbours are filled. */
  lemma InteriorWell(s: BoardState, x: int, y: int)
    requires Shaped(s) && 0 < x < s.width - 1 && 0 <= y < s.height
    ensures WellAt(s, x, y) == if y >= Height(s, x) && s.cells[x - 1][y] && s.cells[x + 1][y] then 1 else 0
  {
  }

  /** At the left border only the right neighbour is asked for. */
  lemma LeftBorderWell(s: BoardState, y: int)
    requires Shaped(s) && s.width >= 2 && 0 <= y < s.height
    ensures WellAt(s, 0, y) == if y >= Height(s, 0) && s.cells[1][y] then 1 else 0
  {
  }

  /**
   * At the right border a cell next to a filled one counts once from the
   * interior test and once more when the cell above it is empty: the
   * asymmetry of the source, kept as written.
   */
  lemma RightBorderWell(s: BoardState, y: int)
    requires Shaped(s) && s.width >= 2 && 0 <= y < s.height
    ensures var x := s.width - 1;
      WellAt(s, x, y) == if y >= Height(s, x) && s.cells[x - 1][y] then 1 + (if Filled(s, x, y + 1) then 0 else 1) else 0
  {
  }

  lemma {:induction false} WellsInBound(s: BoardState, x: int, k: nat)
    requires Shaped(s) && 0 <= x < s.width && k <= s.height
    ensures WellsIn(s, x, k) <= 2 * k
  {
    if k > 0 {
      WellsInBound(s, x, k - 1);
      WellAtBound(s, x, k - 1);
    }
  }

  lemma {:induction false} WellsUpToBound(s: BoardState, n: nat)
    requires Valid(s) && n <= s.width
    ensures WellsUpTo(s, n) <= 2 * n * s.maxHeight
  {
    if n > 0 {
      WellsUpToBound(s, n - 1);
      WellsInBound(s, n - 1, s.maxHeight);
      assert 2 * n * s.maxHeight == 2 * (n - 1) * s.maxHeight + 2 * s.maxHeight;
    }
  }

  /** wells is bounded by twice the cells scanned. */
  lemma WellsBound(s: BoardState)
    requires Valid(s)
    ensures Wells(s) <= 2 * s.width * s.maxHeight
  {
    WellsUpToBound(s, s.width);
  }

  // ------------------------------------------------------------------ score

  /** The features rateBoard computes; sumSquares is the integer numerator of the variance. */
  datatype BoardFeatures = BoardFeatures(
    holes: nat, maxHeight: nat, averageHeight: nat, bumpiness: nat, completeLines: nat,
    rowTransitions: nat, columnTransitions: nat, wells: nat, rowsWithHoles: nat,
    heightDiff: nat, sumSquares: nat)

  /** One coefficient per feature. */
  datatype Weights = Weights(
    holes: int, maxHeight: int, averageHeight: int, bumpiness: int, completeLines: int,
    rowTransitions: int, columnTransitions: int, wells: int, rowsWithHoles: int,
    heightDiff: int, variance: int)

  /** The brain's fixed coefficients. */
  const Tuned: Weights := Weights(93, 64, 29, 10, 0, 37, 37, 25, 39, 0, 1)

  /** The integer-valued part of the weighted sum: every term except the variance. */
  function IntegerPart(w: Weights, f: BoardFeatures): int
  {
    w.holes * f.holes + w.maxHeight * f.maxHeight + w.averageHeight * f.averageHeight +
    w.bumpiness * f.bumpiness + w.completeLines * f.completeLines +
    w.rowTransitions * f.rowTransitions + w.columnTransitions * f.columnTransitions +
    w.wells * f.wells + w.rowsWithHoles * f.rowsWithHoles + w.heightDiff * f.heightDiff
  }

  /** The weighted sum; the variance is sumSquares / width. */
  function Score(w: Weights, f: BoardFeatures, width: nat): real
    requires width > 0
  {
    IntegerPart(w, f) as real + (w.variance as real) * (f.sumSquares as real / width as real)
  }

  /** Every feature of a snapshot. */
  ghost function FeaturesOf(s: BoardState): BoardFeatures
    requires Valid(s)
  {
    BoardFeatures(
      Holes(s), s.maxHeight, AverageHeight(s), Bumpiness(s), CompleteLines(s),
      RowTransitions(s), ColumnTransitions(s), Wells(s), |HoleRows(s)|,
      HeightDiff(s), SumSquares(s))
  }

  /** rateBoard's value for a snapshot. */
  ghost function Rating(s: BoardState): real
    requires Valid(s)
  {
    Score(Tuned, FeaturesOf(s), s.width)
  }

  /** completeLines and heightDiff carry no weight. */
  lemma ScoreIgnoresLinesAndDiff(f: BoardFeatures, width: nat, lines: nat, diff: nat)
    requires width > 0
    ensures Score(Tuned, f.(completeLines := lines, heightDiff := diff), width) == Score(Tuned, f, width)
  {
  }

  /** One more hole, all else equal, costs exactly 93; one more unit of bumpiness exactly 10. */
  lemma ScoreUnitCosts(f: BoardFeatures, width: nat)
    requires width > 0
    ensures Score(Tuned, f.(holes := f.holes + 1), width) == Score(Tuned, f, width) + 93.0
    ensures Score(Tuned, f.(bumpiness := f.bumpiness + 1), width) == Score(Tuned, f, width) + 10.0
  {
  }

  /** width * score is an integer: the only fraction is the variance's division by the width. */
  lemma ScaledScoreIsInteger(f: BoardFeatures, width: nat)
    requires width > 0
    ensures Score(Tuned, f, width) * width as real == (width * IntegerPart(Tuned, f) + f.sumSquares) as real
  {
    var q := f.sumSquares as real / width as real;
    assert q * width as real == f.sumSquares as real;
  }

  /** The average height is the truncated quotient: the largest a with a * width <= the sum of the heights. */
  lemma AverageTruncates(s: BoardState)
    requires Valid(s)
    ensures AverageHeight(s) * s.width <= SumHeights(s, s.width) < (AverageHeight(s) + 1) * s.width
  {
    var total, w := SumHeights(s, s.width), s.width;
    assert total == (total / w) * w + total % w;
  }

  /** For instance, heights summing to 7 over three columns average 2. */
  lemma AverageOfSevenOverThree(s: BoardState)
    requires Valid(s) && s.width == 3 && SumHeights(s, 3) == 7
    ensures AverageHeight(s) == 2
  {
    AverageTruncates(s);
  }
}
