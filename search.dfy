/**
 * bestMove: the one-ply exhaustive search over every rotation and every
 * horizontal offset of a piece, keeping the lowest-rated placement.
 *
 * The search is specified by a table of attempts: row k holds, for each
 * offset x of rotation k, the move that trying it yields, if any. The
 * candidates are the present entries of the table, row by row, offset by
 * offset, which is the order in which the loops of bestMove meet them.
 */
module Search {
  import opened Grid
  import opened Rules
  import opened Features
  import opened Boards
  import Evaluator

  datatype Option<T> = None | Some(value: T)

  /** A chosen placement: offset, landing row, the rotation used and the board's rating after it. */
  datatype Move = Move(x: int, y: int, piece: Piece, score: real)

  /** The number of offsets tried for a rotation: x in 0 .. width - pieceWidth. */
  function Offsets(s: BoardState, p: Piece): nat
  {
    if s.width - p.width + 1 > 0 then s.width - p.width + 1 else 0
  }

  /** The board rateBoard sees after placing `p` at (x, y): the full rows are gone when place filled one. */
  ghost function Settled(s: BoardState, p: Piece, x: int, y: int): (r: BoardState)
    requires Valid(s)
    ensures Valid(r)
  {
    var (result, placed) := Place(s, p, x, y);
    if result == PlaceRowFilled then ClearRows(placed) else placed
  }

  /**
   * What trying rotation `p` at offset `x` yields: nothing when the drop row
   * sticks up past the limit or the placement is refused, else the move
   * with the rating of the settled board.
   */
  ghost function Attempt(s: BoardState, p: Piece, x: int, limitHeight: int): Option<Move>
    requires Valid(s)
  {
    var y := DropHeight(s, p, x);
    if y < limitHeight - p.height + 1 && Place(s, p, x, y).0.Code() <= PLACE_ROW_FILLED then
      Some(Move(x, y, p, Rating(Settled(s, p, x, y))))
    else None
  }

  /** A candidate is a legal placement: every cell inside the grid, none on a filled cell, below the limit. */
  lemma AttemptIsLegal(s: BoardState, p: Piece, x: int, limitHeight: int)
    requires Valid(s)
    ensures var a := Attempt(s, p, x, limitHeight);
      a.Some? ==>
        a.value.x == x && a.value.piece == p && a.value.y == DropHeight(s, p, x) &&
        a.value.y + p.height <= limitHeight &&
        InBounds(s, p, x, a.value.y) && !Overlaps(s, p, x, a.value.y)
    ensures var a := Attempt(s, p, x, limitHeight);
      a.Some? && WellFormed(p) ==>
        forall i :: 0 <= i < |p.body| ==> a.value.y + p.body[i].1 < limitHeight
  {
    PlaceReports(s, p, x, DropHeight(s, p, x));
  }

  /** Nothing is tried when the drop row would make the piece stick up past the limit. */
  lemma AttemptTooHigh(s: BoardState, p: Piece, x: int, limitHeight: int)
    requires Valid(s) && DropHeight(s, p, x) + p.height > limitHeight
    ensures Attempt(s, p, x, limitHeight) == None
  {
  }

  // ---------------------------------------------------------------------
  // Present entries of option sequences and tables
  // ---------------------------------------------------------------------

  function AsSeq<T>(o: Option<T>): seq<T>
  {
    if o.Some? then [o.value] else []
  }

  /** The values of the present entries of `os`, in order. */
  function Keep<T>(os: seq<Option<T>>): seq<T>
  {
    if |os| == 0 then [] else Keep(os[..|os| - 1]) + AsSeq(os[|os| - 1])
  }

  lemma KeepStep<T>(os: seq<Option<T>>, x: nat)
    requires x < |os|
    ensures Keep(os[..x + 1]) == Keep(os[..x]) + AsSeq(os[x])
  {
    assert os[..x + 1][..x] == os[..x];
  }

  /** A value is kept exactly when some entry holds it. */
  lemma {:induction false} KeepMembers<T>(os: seq<Option<T>>, m: T)
    ensures m in Keep(os) <==> exists i :: 0 <= i < |os| && os[i] == Some(m)
  {
    if |os| > 0 {
      var init := os[..|os| - 1];
      KeepMembers(init, m);
      assert forall i :: 0 <= i < |init| ==> init[i] == os[i];
      if os[|os| - 1] == Some(m) {
        assert m in Keep(os);
      }
    }
  }

  /** When entry `i` can only be a move at offset `i`, the kept moves come in strictly increasing offset order. */
  lemma {:induction false} KeepOrdered(os: seq<Option<Move>>)
    requires forall i :: 0 <= i < |os| && os[i].Some? ==> os[i].value.x == i
    ensures forall i :: 0 <= i < |Keep(os)| ==> 0 <= Keep(os)[i].x < |os|
    ensures forall i, j :: 0 <= i < j < |Keep(os)| ==> Keep(os)[i].x < Keep(os)[j].x
  {
    if |os| > 0 {
      var init := os[..|os| - 1];
      assert forall i :: 0 <= i < |init| ==> init[i] == os[i];
      KeepOrdered(init);
    }
  }

  /** Nothing is kept from a sequence without present entries. */
  lemma {:induction false} KeepNone<T>(os: seq<Option<T>>)
    requires forall x :: 0 <= x < |os| ==> os[x].None?
    ensures Keep(os) == []
  {
    if |os| > 0 {
      var init := os[..|os| - 1];
      assert forall x :: 0 <= x < |init| ==> init[x] == os[x];
      KeepNone(init);
    }
  }

  /** The present entries of a table, row after row. */
  function Flatten<T>(rows: seq<seq<Option<T>>>): seq<T>
  {
    if |rows| == 0 then [] else Flatten(rows[..|rows| - 1]) + Keep(rows[|rows| - 1])
  }

  lemma FlattenPrefix<T>(rows: seq<seq<Option<T>>>, k: nat)
    requires k < |rows|
    ensures Flatten(rows[..k + 1]) == Flatten(rows[..k]) + Keep(rows[k])
  {
    assert rows[..k + 1][..k] == rows[..k];
  }

  /** A value is a present entry of the table exactly when some row keeps it. */
  lemma {:induction false} FlattenMembers<T>(rows: seq<seq<Option<T>>>, m: T)
    ensures m in Flatten(rows) <==>
            exists k, x :: 0 <= k < |rows| && 0 <= x < |rows[k]| && rows[k][x] == Some(m)
  {
    if |rows| > 0 {
      var n := |rows| - 1;
      var init := rows[..n];
      FlattenMembers(init, m);
      KeepMembers(rows[n], m);
      assert forall k :: 0 <= k < |init| ==> init[k] == rows[k];
      if exists k, x :: 0 <= k < |rows| && 0 <= x < |rows[k]| && rows[k][x] == Some(m) {
        var k, x :| 0 <= k < |rows| && 0 <= x < |rows[k]| && rows[k][x] == Some(m);
        if k < n {
          assert init[k][x] == Some(m);
        }
      }
    }
  }

  /** A table without present entries has nothing to flatten. */
  lemma {:induction false} FlattenNone<T>(rows: seq<seq<Option<T>>>)
    requires forall k, x :: 0 <= k < |rows| && 0 <= x < |rows[k]| ==> rows[k][x].None?
    ensures Flatten(rows) == []
  {
    if |rows| > 0 {
      var n := |rows| - 1;
      var init := rows[..n];
      assert forall k :: 0 <= k < |init| ==> init[k] == rows[k];
      FlattenNone(init);
      KeepNone(rows[n]);
    }
  }

  // ---------------------------------------------------------------------
  // The table of attempts and the candidates of the search
  // ---------------------------------------------------------------------

  /** The attempts of rotation `p` at offsets `0 .. n-1`. */
  ghost function Attempts(s: BoardState, p: Piece, limitHeight: int, n: nat): (os: seq<Option<Move>>)
    requires Valid(s)
    ensures |os| == n
  {
    if n == 0 then [] else Attempts(s, p, limitHeight, n - 1) + [Attempt(s, p, n - 1, limitHeight)]
  }

  lemma {:induction false} AttemptsAt(s: BoardState, p: Piece, limitHeight: int, n: nat, x: nat)
    requires Valid(s) && x < n
    ensures Attempts(s, p, limitHeight, n)[x] == Attempt(s, p, x, limitHeight)
  {
    if x < n - 1 {
      AttemptsAt(s, p, limitHeight, n - 1, x);
    }
  }

  /** Row k: the attempts of rotation k at each of its offsets. */
  ghost function Table(s: BoardState, rotations: seq<Piece>, limitHeight: int): (t: seq<seq<Option<Move>>>)
    requires Valid(s)
    ensures |t| == |rotations|
    ensures forall k :: 0 <= k < |rotations| ==> |t[k]| == Offsets(s, rotations[k])
  {
    seq(|rotations|, k requires 0 <= k < |rotations| =>
      Attempts(s, rotations[k], limitHeight, Offsets(s, rotations[k])))
  }

  lemma TableAt(s: BoardState, rotations: seq<Piece>, limitHeight: int, k: int, x: int)
    requires Valid(s) && 0 <= k < |rotations| && 0 <= x < Offsets(s, rotations[k])
    ensures Table(s, rotations, limitHeight)[k][x] == Attempt(s, rotations[k], x, limitHeight)
  {
    AttemptsAt(s, rotations[k], limitHeight, Offsets(s, rotations[k]), x);
  }

  /** Every accepted attempt, rotation by rotation, offset by offset. */
  ghost function Candidates(s: BoardState, rotations: seq<Piece>, limitHeight: int): seq<Move>
    requires Valid(s)
  {
    Flatten(Table(s, rotations, limitHeight))
  }

  /** A move is a candidate exactly when it is what some rotation yields at some offset it is tried at. */
  lemma CandidatesMembers(s: BoardState, rotations: seq<Piece>, limitHeight: int, m: Move)
    requires Valid(s)
    ensures m in Candidates(s, rotations, limitHeight) <==>
            exists k, x :: 0 <= k < |rotations| && 0 <= x < Offsets(s, rotations[k]) &&
                           Attempt(s, rotations[k], x, limitHeight) == Some(m)
  {
    var t := Table(s, rotations, limitHeight);
    FlattenMembers(t, m);
    forall k, x | 0 <= k < |rotations| && 0 <= x < Offsets(s, rotations[k])
      ensures t[k][x] == Attempt(s, rotations[k], x, limitHeight)
    {
      TableAt(s, rotations, limitHeight, k, x);
    }
  }

  /** The candidates of one rotation come in strictly increasing offset order, all of that rotation. */
  lemma RotationOrdered(s: BoardState, rotations: seq<Piece>, limitHeight: int, k: int)
    requires Valid(s) && 0 <= k < |rotations|
    ensures var cs := Keep(Table(s, rotations, limitHeight)[k]);
      (forall i :: 0 <= i < |cs| ==> 0 <= cs[i].x < Offsets(s, rotations[k]) && cs[i].piece == rotations[k]) &&
      (forall i, j :: 0 <= i < j < |cs| ==> cs[i].x < cs[j].x)
  {
    var os := Table(s, rotations, limitHeight)[k];
    forall x | 0 <= x < |os| && os[x].Some?
      ensures os[x].value.x == x && os[x].value.piece == rotations[k]
    {
      TableAt(s, rotations, limitHeight, k, x);
      AttemptIsLegal(s, rotations[k], x, limitHeight);
    }
    KeepOrdered(os);
    forall i | 0 <= i < |Keep(os)|
      ensures Keep(os)[i].piece == rotations[k]
    {
      KeepMembers(os, Keep(os)[i]);
    }
  }

  /**
   * No play at all: when every rotation at every offset would stick up past
   * the limit, there is no candidate, and bestMove returns None.
   */
  lemma NoCandidatesWhenTooHigh(s: BoardState, rotations: seq<Piece>, limitHeight: int)
    requires Valid(s)
    requires forall k, x :: 0 <= k < |rotations| && 0 <= x < Offsets(s, rotations[k]) ==>
               DropHeight(s, rotations[k], x) + rotations[k].height > limitHeight
    ensures Candidates(s, rotations, limitHeight) == []
  {
    var t: seq<seq<Option<Move>>> := Table(s, rotations, limitHeight);
    forall k, x | 0 <= k < |t| && 0 <= x < |t[k]|
      ensures t[k][x].None?
    {
      TableAt(s, rotations, limitHeight, k, x);
      AttemptTooHigh(s, rotations[k], x, limitHeight);
    }
    FlattenNone(t);
  }

  // ---------------------------------------------------------------------
  // The best-so-far and the search itself
  // ---------------------------------------------------------------------

  /** `cs[i]` has the lowest score of `cs`, and every earlier candidate scores strictly more. */
  ghost predicate FirstLowest(cs: seq<Move>, i: int)
  {
    0 <= i < |cs| &&
    (forall j :: 0 <= j < |cs| ==> cs[i].score <= cs[j].score) &&
    (forall j :: 0 <= j < i ==> cs[i].score < cs[j].score)
  }

  /** The best-so-far of the search after seeing `seen`: none before the first candidate, then the first lowest. */
  ghost predicate Tracks(seen: seq<Move>, best: Option<Move>, index: int)
  {
    (best.None? <==> |seen| == 0) &&
    (best.Some? ==> FirstLowest(seen, index) && seen[index] == best.value)
  }

  /** Replacing the best only on a strictly lower score keeps it the first lowest. */
  lemma TracksStep(seen: seq<Move>, best: Option<Move>, index: int, c: Move)
    requires Tracks(seen, best, index)
    ensures best.None? || c.score < best.value.score ==> Tracks(seen + [c], Some(c), |seen|)
    ensures !(best.None? || c.score < best.value.score) ==> Tracks(seen + [c], best, index)
  {
  }

  /**
   * One candidate of bestMove: drop, place, clear the filled rows, rate,
   * and undo whatever place did, so the board ends as it began.
   */
  method TryPlacement(board: Board, current: Piece, x: int, limitHeight: int) returns (candidate: Option<Move>)
    requires board.Valid() && board.committed
    modifies board
    ensures board.Valid() && board.committed && board.State() == old(board.State())
    ensures candidate == Attempt(old(board.State()), current, x, limitHeight)
  {
    var yBound := limitHeight - current.height + 1;
    candidate := None;
    var y := board.DropHeight(current, x);
    if y < yBound {
      var result := board.Place(current, x, y);
      if result.Code() <= PLACE_ROW_FILLED {
        if result == PlaceRowFilled {
          board.ClearRows();
        }
        var score := Evaluator.RateBoard(board);
        candidate := Some(Move(x, y, current, score));
      }
      board.Undo();
    }
  }

  /**
   * The comparison of bestMove's inner loop: the candidate of offset `x`
   * replaces the best so far only when it scores strictly lower.
   */
  method Consider(candidate: Option<Move>, best0: Option<Move>,
                  ghost row: seq<Option<Move>>, ghost x: nat, ghost before: seq<Move>,
                  ghost seen0: seq<Move>, ghost index0: int)
    returns (best: Option<Move>, ghost seen: seq<Move>, ghost index: int)
    requires x < |row| && row[x] == candidate
    requires seen0 == before + Keep(row[..x])
    requires Tracks(seen0, best0, index0)
    ensures seen == before + Keep(row[..x + 1])
    ensures Tracks(seen, best, index)
    ensures best == if candidate.Some? && (best0.None? || candidate.value.score < best0.value.score)
                    then candidate else best0
  {
    best, index := best0, index0;
    if candidate.Some? {
      TracksStep(seen0, best, index, candidate.value);
      if best.None? || candidate.value.score < best.value.score {
        best, index := candidate, |seen0|;
      }
    }
    KeepStep(row, x);
    seen := seen0 + AsSeq(candidate);
  }

  /**
   * The inner loop of bestMove for one rotation: every offset from 0 to
   * width - pieceWidth, folding each accepted candidate into the best-so-far.
   */
  method SweepRotation(board: Board, current: Piece, limitHeight: int, best0: Option<Move>,
                       ghost seen0: seq<Move>, ghost index0: int)
    returns (best: Option<Move>, ghost seen: seq<Move>, ghost index: int)
    requires board.Valid() && board.committed
    requires Tracks(seen0, best0, index0)
    modifies board
    ensures board.Valid() && board.committed && board.State() == old(board.State())
    ensures seen == seen0 + Keep(Attempts(old(board.State()), current, limitHeight, Offsets(old(board.State()), current)))
    ensures Tracks(seen, best, index)
  {
    ghost var s0 := board.State();
    ghost var row := Attempts(s0, current, limitHeight, Offsets(s0, current));
    best, seen, index := best0, seen0, index0;
    var xBound := board.width - current.width + 1;
    var x := 0;
    assert row[..0] == [];
    while x < xBound
      invariant 0 <= x <= |row|
      invariant board.Valid() && board.committed && board.State() == s0
      invariant seen == seen0 + Keep(row[..x])
      invariant Tracks(seen, best, index)
    {
      var candidate := TryPlacement(board, current, x, limitHeight);
      AttemptsAt(s0, current, limitHeight, |row|, x);
      best, seen, index := Consider(candidate, best, row, x, seen0, seen, index);
      x := x + 1;
    }
    assert row[..x] == row;
  }

  /**
   * bestMove. `rotations` lists the piece's rotation cycle: the piece
   * itself first, then each next rotation until the cycle closes. `best`
   * holds bestX, bestY, bestPiece and bestScore together, and is None while
   * bestPiece is null: the result is None exactly when no placement is
   * possible, and otherwise the first of the lowest-rated candidates.
   */
  method BestMove(board: Board, rotations: seq<Piece>, limitHeight: int) returns (best: Option<Move>)
    requires board.Valid() && board.committed
    requires |rotations| > 0
    modifies board
    ensures board.Valid() && board.committed && board.State() == old(board.State())
    ensures var cs := Candidates(old(board.State()), rotations, limitHeight);
      (best.None? <==> |cs| == 0) &&
      (best.Some? ==> exists i :: FirstLowest(cs, i) && cs[i] == best.value)
  {
    ghost var s0 := board.State();
    ghost var t := Table(s0, rotations, limitHeight);
    best := None;
    ghost var seen: seq<Move> := [];
    ghost var bestIndex := 0;
    var k := 0;
    assert t[..0] == [];
    while k < |rotations|
      invariant 0 <= k <= |rotations|
      invariant board.Valid() && board.committed && board.State() == s0
      invariant seen == Flatten(t[..k])
      invariant Tracks(seen, best, bestIndex)
    {
      best, seen, bestIndex := SweepRotation(board, rotations[k], limitHeight, best, seen, bestIndex);
      FlattenPrefix(t, k);
      k := k + 1;
    }
    assert t[..k] == t;
  }
}
