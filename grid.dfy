/** Cells, grid positions and the pure operations on one player's 10x10 grid. */
module GridModel {

  /** Number of rows and of columns of every grid. */
  const GridSize: int := 10

  /** Lengths of the ships each player places, in the order they are placed. */
  const ShipSizes: seq<int> := [3, 2, 1]

  /** Number of ships per player. */
  const ShipsCount: int := |ShipSizes|

  /** The state of one cell; no other states exist. */
  datatype CellState = Empty | Ship | Hit | Miss

  /** A cell coordinate: `x` is the column, `y` the row. */
  datatype GridPos = GridPos(x: int, y: int)

  /** A grid as a sequence of rows, so that cell (x, y) is `g[y][x]`. */
  type Grid = seq<seq<CellState>>

  predicate WellFormed(g: Grid) {
    |g| == GridSize && forall y :: 0 <= y < GridSize ==> |g[y]| == GridSize
  }

  predicate InGrid(p: GridPos) {
    0 <= p.x < GridSize && 0 <= p.y < GridSize
  }

  /** Two well-formed grids that agree on every cell are equal. */
  lemma GridExt(a: Grid, b: Grid)
    requires WellFormed(a) && WellFormed(b)
    requires forall y, x :: 0 <= y < GridSize && 0 <= x < GridSize ==> a[y][x] == b[y][x]
    ensures a == b
  {
    forall y | 0 <= y < GridSize
      ensures a[y] == b[y]
    {
      assert forall x :: 0 <= x < GridSize ==> a[y][x] == b[y][x];
    }
  }

  /** The grid every board starts from. */
  function EmptyGrid(): (g: Grid)
    ensures WellFormed(g)
    ensures forall y, x :: 0 <= y < GridSize && 0 <= x < GridSize ==> g[y][x] == Empty
  {
    seq(GridSize, _ => seq(GridSize, _ => Empty))
  }

  /**
   * A ship of length `len` fits horizontally from `p` rightwards: it ends
   * inside the grid and covers only Empty cells. The bound is checked first,
   * so no column at or beyond GridSize is ever read.
   */
  predicate CanPlace(g: Grid, p: GridPos, len: int)
    requires WellFormed(g) && InGrid(p)
  {
    p.x + len <= GridSize && forall x :: p.x <= x < p.x + len ==> g[p.y][x] == Empty
  }

  /** The grid with cells (p.y, p.x .. p.x + len - 1) overwritten by Ship. */
  function Place(g: Grid, p: GridPos, len: int): (g': Grid)
    requires WellFormed(g) && InGrid(p) && 0 <= len && p.x + len <= GridSize
    ensures WellFormed(g')
    ensures forall y, x :: 0 <= y < GridSize && 0 <= x < GridSize ==>
      g'[y][x] == if y == p.y && p.x <= x < p.x + len then Ship else g[y][x]
  {
    g[p.y := g[p.y][..p.x] + seq(len, _ => Ship) + g[p.y][p.x + len..]]
  }

  /** The grid with the one cell at `p` set to `v`. */
  function SetCell(g: Grid, p: GridPos, v: CellState): (g': Grid)
    requires WellFormed(g) && InGrid(p)
    ensures WellFormed(g')
    ensures g'[p.y][p.x] == v
    ensures forall y, x :: 0 <= y < GridSize && 0 <= x < GridSize && (y != p.y || x != p.x) ==>
      g'[y][x] == g[y][x]
  {
    g[p.y := g[p.y][p.x := v]]
  }

  /**
   * The grid after a shot at `p`: an Empty cell becomes Miss, a Ship cell
   * becomes Hit, and a cell already Hit or Miss is left as it is.
   */
  function Shoot(g: Grid, p: GridPos): (g': Grid)
    requires WellFormed(g) && InGrid(p)
    ensures WellFormed(g')
    ensures g[p.y][p.x] == Empty ==> g'[p.y][p.x] == Miss
    ensures g[p.y][p.x] == Ship ==> g'[p.y][p.x] == Hit
    ensures g[p.y][p.x] == Hit || g[p.y][p.x] == Miss ==> g' == g
    ensures forall y, x :: 0 <= y < GridSize && 0 <= x < GridSize && (y != p.y || x != p.x) ==>
      g'[y][x] == g[y][x]
  {
    match g[p.y][p.x]
    case Empty => SetCell(g, p, Miss)
    case Ship => SetCell(g, p, Hit)
    case _ => g
  }

  /**
   * The cell changes the game allows, over any number of moves: Empty may
   * become anything, Ship may become Hit, and Hit and Miss never change.
   */
  predicate Evolves(before: CellState, after: CellState) {
    before == after || before == Empty || (before == Ship && after == Hit)
  }

  /**
   * The cell changes a single click can make: Empty to Ship (placement),
   * Empty to Miss or Ship to Hit (a shot), or no change.
   */
  predicate OneMove(before: CellState, after: CellState) {
    || before == after
    || (before == Empty && (after == Ship || after == Miss))
    || (before == Ship && after == Hit)
  }

  /** Evolves is the reflexive-transitive closure of OneMove. */
  lemma EvolvesClosesOneMove(a: CellState, b: CellState, c: CellState)
    ensures OneMove(a, b) ==> Evolves(a, b)
    ensures Evolves(a, b) && Evolves(b, c) ==> Evolves(a, c)
    ensures Evolves(a, c) ==> exists m :: OneMove(a, m) && OneMove(m, c)
  {
    if Evolves(a, c) {
      if a == Empty && c == Hit {
        assert OneMove(a, Ship) && OneMove(Ship, c);
      } else {
        assert OneMove(a, c) && OneMove(c, c);
      }
    }
  }

  /** What the display shows for a cell: ships are hidden while `hideShips`. */
  function Displayed(c: CellState, hideShips: bool): (d: CellState)
    ensures hideShips ==> d != Ship
    ensures d != c ==> hideShips && c == Ship && d == Empty
  {
    if hideShips && c == Ship then Empty else c
  }
}
