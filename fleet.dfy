/**
 * Counting the cells of a grid that belong to a ship, whether still afloat
 * (Ship) or already struck (Hit). Placing a ship adds its length to the
 * count and a shot never changes it.
 */
module Fleet {
  import opened GridModel

  predicate IsFleet(c: CellState) {
    c == Ship || c == Hit
  }

  function RowFleet(row: seq<CellState>): nat {
    if row == [] then 0 else (if IsFleet(row[0]) then 1 else 0) + RowFleet(row[1..])
  }

  function GridFleet(g: Grid): nat {
    if g == [] then 0 else RowFleet(g[0]) + GridFleet(g[1..])
  }

  lemma {:induction false} RowFleetAppend(a: seq<CellState>, b: seq<CellState>)
    ensures RowFleet(a + b) == RowFleet(a) + RowFleet(b)
  {
    if a != [] {
      assert (a + b)[1..] == a[1..] + b;
      RowFleetAppend(a[1..], b);
    } else {
      assert a + b == b;
    }
  }

  lemma {:induction false} RowFleetAllEmpty(row: seq<CellState>)
    requires forall i :: 0 <= i < |row| ==> row[i] == Empty
    ensures RowFleet(row) == 0
  {
    if row != [] {
      RowFleetAllEmpty(row[1..]);
    }
  }

  lemma {:induction false} RowFleetAllShip(len: nat)
    ensures RowFleet(seq(len, _ => Ship)) == len
  {
    if len > 0 {
      assert seq(len, _ => Ship)[1..] == seq(len - 1, _ => Ship);
      RowFleetAllShip(len - 1);
    }
  }

  /** Overwriting one cell changes the count only by what the cell held and now holds. */
  lemma RowFleetSet(row: seq<CellState>, i: int, v: CellState)
    requires 0 <= i < |row|
    ensures RowFleet(row[i := v]) + (if IsFleet(row[i]) then 1 else 0)
         == RowFleet(row) + (if IsFleet(v) then 1 else 0)
  {
    assert row == row[..i] + [row[i]] + row[i + 1..];
    assert row[i := v] == row[..i] + [v] + row[i + 1..];
    RowFleetAppend(row[..i] + [row[i]], row[i + 1..]);
    RowFleetAppend(row[..i], [row[i]]);
    RowFleetAppend(row[..i] + [v], row[i + 1..]);
    RowFleetAppend(row[..i], [v]);
  }

  /** Replacing one row changes the grid's count by the difference of the two rows' counts. */
  lemma {:induction false} GridFleetSetRow(g: Grid, y: int, row: seq<CellState>)
    requires 0 <= y < |g|
    ensures GridFleet(g[y := row]) + RowFleet(g[y]) == GridFleet(g) + RowFleet(row)
  {
    if y == 0 {
      assert g[y := row][1..] == g[1..];
    } else {
      assert g[y := row][1..] == g[1..][y - 1 := row];
      GridFleetSetRow(g[1..], y - 1, row);
    }
  }

  lemma {:induction false} GridFleetNone(g: Grid)
    requires forall y :: 0 <= y < |g| ==> RowFleet(g[y]) == 0
    ensures GridFleet(g) == 0
  {
    if g != [] {
      GridFleetNone(g[1..]);
    }
  }

  /** An empty grid holds no ship cell. */
  lemma EmptyGridFleet()
    ensures GridFleet(EmptyGrid()) == 0
  {
    var g := EmptyGrid();
    forall y | 0 <= y < |g|
      ensures RowFleet(g[y]) == 0
    {
      RowFleetAllEmpty(g[y]);
    }
    GridFleetNone(g);
  }

  /** A placement that CanPlace accepts adds exactly `len` ship cells. */
  lemma PlaceAddsFleet(g: Grid, p: GridPos, len: int)
    requires WellFormed(g) && InGrid(p) && 0 <= len && CanPlace(g, p, len)
    ensures GridFleet(Place(g, p, len)) == GridFleet(g) + len
  {
    var row := g[p.y];
    var mid := row[p.x..p.x + len];
    assert row == row[..p.x] + mid + row[p.x + len..];
    RowFleetAppend(row[..p.x] + mid, row[p.x + len..]);
    RowFleetAppend(row[..p.x], mid);
    RowFleetAllEmpty(mid);
    var ships := seq(len, _ => Ship);
    RowFleetAppend(row[..p.x] + ships, row[p.x + len..]);
    RowFleetAppend(row[..p.x], ships);
    RowFleetAllShip(len);
    GridFleetSetRow(g, p.y, row[..p.x] + ships + row[p.x + len..]);
  }

  /** A shot turns Empty into Miss or Ship into Hit, so the ship-cell count stays. */
  lemma ShootKeepsFleet(g: Grid, p: GridPos)
    requires WellFormed(g) && InGrid(p)
    ensures GridFleet(Shoot(g, p)) == GridFleet(g)
  {
    var c := g[p.y][p.x];
    if c == Empty || c == Ship {
      var v := if c == Empty then Miss else Hit;
      RowFleetSet(g[p.y], p.x, v);
      GridFleetSetRow(g, p.y, g[p.y][p.x := v]);
    }
  }
}
