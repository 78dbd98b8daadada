/**
 * The mutable Board the brain borrows: read accessors, place, clearRows and
 * a single level of undo. Only the contracts matter to the brain; a place
 * needs a committed board, and undo brings back the board as it was at the
 * last commit.
 */
module Boards {
  import opened Grid
  import opened Rules

  class Board {
    const width: nat
    const height: nat
    var cells: seq<seq<bool>>
    var maxHeight: nat
    /** No placement is pending: the board equals its backup. */
    var committed: bool
    var savedCells: seq<seq<bool>>
    var savedMaxHeight: nat

    /** The snapshot the accessors read. */
    function State(): BoardState
      reads this
    {
      BoardState(width, height, cells, maxHeight)
    }

    /** The snapshot undo returns to. */
    ghost function Saved(): BoardState
      reads this
    {
      BoardState(width, height, savedCells, savedMaxHeight)
    }

    ghost predicate Valid()
      reads this
    {
      Grid.Valid(State()) && Grid.Valid(Saved()) && (committed ==> Saved() == State())
    }

    /** An empty committed board. */
    constructor (w: nat, h: nat)
      requires w > 0
      ensures Valid() && committed && width == w && height == h
      ensures cells == seq(w, _ => seq(h, _ => false)) && maxHeight == 0
    {
      width, height := w, h;
      var empty := seq(w, _ => seq(h, _ => false));
      cells, savedCells := empty, empty;
      maxHeight, savedMaxHeight := 0, 0;
      committed := true;
      new;
      forall x | 0 <= x < w
        ensures Height(State(), x) == 0
      {
        assert cells[x] == seq(h, _ => false);
      }
    }

    /** Board.dropHeight(piece, x). */
    function DropHeight(p: Piece, x: int): int
      reads this
      requires Valid()
    {
      Rules.DropHeight(State(), p, x)
    }

    /** Board.place(piece, x, y): backs the committed board up, then places. */
    method Place(p: Piece, x: int, y: int) returns (result: PlaceResult)
      requires Valid() && committed
      modifies this
      ensures Valid() && !committed
      ensures Saved() == old(State())
      ensures (result, State()) == Rules.Place(old(State()), p, x, y)
    {
      savedCells, savedMaxHeight := cells, maxHeight;
      committed := false;
      var r := Rules.Place(State(), p, x, y);
      result := r.0;
      cells, maxHeight := r.1.cells, r.1.maxHeight;
    }

    /** Board.clearRows(): backs a committed board up first, then removes the full rows. */
    method ClearRows()
      requires Valid()
      modifies this
      ensures Valid() && !committed
      ensures Saved() == old(Saved())
      ensures State() == Rules.ClearRows(old(State()))
    {
      if committed {
        savedCells, savedMaxHeight := cells, maxHeight;
        committed := false;
      }
      var r := Rules.ClearRows(State());
      cells, maxHeight := r.cells, r.maxHeight;
    }

    /** Board.undo(): back to the last committed board; nothing to do on a committed one. */
    method Undo()
      requires Valid()
      modifies this
      ensures Valid() && committed
      ensures State() == old(Saved()) && Saved() == old(Saved())
    {
      cells, maxHeight := savedCells, savedMaxHeight;
      committed := true;
    }
  }
}
