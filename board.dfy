/**
 * One player's board as the program keeps it: a 10x10 array of cells that
 * is written in place, and the `shipsToPlace` counter.
 */
module BoardModel {
  import opened GridModel

  class Board {
    const cells: array2<CellState>
    /** Set to ShipsCount at start-up and when placement hands over; never read. */
    var shipsToPlace: int

    ghost predicate Valid() {
      cells.Length0 == GridSize && cells.Length1 == GridSize
    }

    /** The cells as a grid value, row by row. */
    ghost function View(): (g: Grid)
      requires Valid()
      reads cells
      ensures WellFormed(g)
      ensures forall y, x :: 0 <= y < GridSize && 0 <= x < GridSize ==> g[y][x] == cells[y, x]
    {
      seq(GridSize, y requires 0 <= y < GridSize reads cells =>
        seq(GridSize, x requires 0 <= x < GridSize reads cells => cells[y, x]))
    }

    /** A board whose every cell is Empty, with ShipsCount ships to place. */
    constructor ()
      ensures Valid() && fresh(cells)
      ensures View() == EmptyGrid() && shipsToPlace == ShipsCount
    {
      var a := new CellState[GridSize, GridSize];
      var i := 0;
      while i < GridSize
        invariant 0 <= i <= GridSize
        invariant forall y, x :: 0 <= y < i && 0 <= x < GridSize ==> a[y, x] == Empty
      {
        var j := 0;
        while j < GridSize
          invariant 0 <= j <= GridSize
          invariant forall y, x :: 0 <= y < i && 0 <= x < GridSize ==> a[y, x] == Empty
          invariant forall x :: 0 <= x < j ==> a[i, x] == Empty
        {
          a[i, j] := Empty;
          j := j + 1;
        }
        i := i + 1;
      }
      cells := a;
      shipsToPlace := ShipsCount;
      new;
      GridExt(View(), EmptyGrid());
    }

    /**
     * Whether a ship of length `shipLen` fits horizontally from `pos`. The
     * bound is checked before the loop and the loop stops at the first
     * occupied cell, so no column past the grid is read. Nothing is
     * written, so asking twice gives the same answer.
     */
    method CanPlaceHorizontal(pos: GridPos, shipLen: int) returns (canPlace: bool)
      requires Valid() && InGrid(pos)
      ensures canPlace == CanPlace(View(), pos, shipLen)
    {
      canPlace := true;
      if pos.x + shipLen > GridSize {
        canPlace := false;
      }
      var i := 0;
      while i < shipLen && canPlace
        invariant 0 <= i
        invariant canPlace ==> pos.x + shipLen <= GridSize && pos.x + i <= GridSize
        invariant canPlace ==> forall x :: pos.x <= x < pos.x + i ==> cells[pos.y, x] == Empty
        invariant !canPlace ==> !CanPlace(View(), pos, shipLen)
        decreases shipLen - i
      {
        if cells[pos.y, pos.x + i] != Empty {
          canPlace := false;
        }
        i := i + 1;
      }
    }

    /** Writes Ship into cells (pos.y, pos.x .. pos.x + shipLen - 1), one at a time. */
    method PlaceShip(pos: GridPos, shipLen: int)
      requires Valid() && InGrid(pos) && 0 <= shipLen && pos.x + shipLen <= GridSize
      modifies cells
      ensures View() == Place(old(View()), pos, shipLen)
    {
      var i := 0;
      while i < shipLen
        invariant 0 <= i <= shipLen
        invariant forall y, x :: 0 <= y < GridSize && 0 <= x < GridSize ==>
          cells[y, x] == if y == pos.y && pos.x <= x < pos.x + i then Ship else old(cells[y, x])
      {
        cells[pos.y, pos.x + i] := Ship;
        i := i + 1;
      }
      GridExt(View(), Place(old(View()), pos, shipLen));
    }

    /**
     * Resolves a shot at `pos` and returns what the cell held before: Empty
     * becomes Miss, Ship becomes Hit, Hit and Miss stay.
     */
    method ResolveShot(pos: GridPos) returns (cell: CellState)
      requires Valid() && InGrid(pos)
      modifies cells
      ensures cell == old(View())[pos.y][pos.x]
      ensures View() == Shoot(old(View()), pos)
    {
      cell := cells[pos.y, pos.x];
      if cell == Empty {
        cells[pos.y, pos.x] := Miss;
      } else if cell == Ship {
        cells[pos.y, pos.x] := Hit;
      }
      GridExt(View(), Shoot(old(View()), pos));
    }
  }
}
