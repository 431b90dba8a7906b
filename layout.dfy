/**
 * Screen layout of the two grids and the mapping of a click, in window
 * pixels, to the cell of one grid. Pixels are whole numbers here; see the
 * README for why this loses nothing against the fractional mouse
 * coordinates of the window system.
 */
module Layout {
  import opened GridModel

  /** Side of one cell, in pixels. */
  const CellSize: int := 30
  /** Left edge of player 0's grid. */
  const LeftGridX: int := 50
  /** Left edge of player 1's grid. */
  const RightGridX: int := 550
  /** Top edge of both grids. */
  const GridY: int := 100

  datatype Option<T> = None | Some(value: T)

  /** A mouse-button-down position in window pixels. */
  datatype Pixel = Pixel(x: int, y: int)

  /** The left edge of the grid that shows `player`'s board. */
  function GridOffset(player: int): (xOffset: int)
    ensures xOffset == LeftGridX || xOffset == RightGridX
    ensures xOffset == LeftGridX <==> player == 0
  {
    if player == 0 then LeftGridX else RightGridX
  }

  /**
   * The pixel (mx, my) lies in the 30x30 slot of cell `p` of the grid at
   * (xOffset, yOffset); the 28x28 square drawn for the cell is the top-left
   * part of its slot, the rest is the gap between cells.
   */
  predicate InCell(mx: int, my: int, p: GridPos, xOffset: int, yOffset: int) {
    && xOffset + CellSize * p.x <= mx < xOffset + CellSize * p.x + CellSize
    && yOffset + CellSize * p.y <= my < yOffset + CellSize * p.y + CellSize
  }

  /**
   * The cell of the grid at (xOffset, yOffset) under the pixel (mx, my), or
   * None when the pixel is outside that grid.
   */
  function InsideGrid(mx: int, my: int, xOffset: int, yOffset: int): (r: Option<GridPos>)
    ensures r.Some? <==> (&& xOffset <= mx < xOffset + CellSize * GridSize
                          && yOffset <= my < yOffset + CellSize * GridSize)
    ensures r.Some? ==> InGrid(r.value) && InCell(mx, my, r.value, xOffset, yOffset)
  {
    if mx < xOffset || mx >= xOffset + CellSize * GridSize then None
    else if my < yOffset || my >= yOffset + CellSize * GridSize then None
    else Some(GridPos((mx - xOffset) / CellSize, (my - yOffset) / CellSize))
  }

  /** Every pixel of a cell's slot maps back to that cell. */
  lemma InsideGridOfCell(mx: int, my: int, p: GridPos, xOffset: int, yOffset: int)
    requires InGrid(p) && InCell(mx, my, p, xOffset, yOffset)
    ensures InsideGrid(mx, my, xOffset, yOffset) == Some(p)
  {
  }

  /** The top-left pixel of cell `p`'s slot, where its square is drawn. */
  function CellOrigin(p: GridPos, xOffset: int, yOffset: int): (px: Pixel)
    requires InGrid(p)
    ensures InsideGrid(px.x, px.y, xOffset, yOffset) == Some(p)
  {
    var px := Pixel(xOffset + CellSize * p.x, yOffset + CellSize * p.y);
    InsideGridOfCell(px.x, px.y, p, xOffset, yOffset);
    px
  }

  /** No pixel belongs to both players' grids. */
  lemma GridsDisjoint(mx: int, my: int)
    ensures InsideGrid(mx, my, LeftGridX, GridY).None? || InsideGrid(mx, my, RightGridX, GridY).None?
  {
  }
}
