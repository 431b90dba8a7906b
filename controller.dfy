/**
 * The game controller as a pure state machine: the state both players
 * share, the effect of one click in either phase, and the effect of a
 * finite sequence of clicks (the event loop).
 */
module Controller {
  import opened GridModel
  import opened Layout

  /**
   * The whole game state: one grid and one `shipsToPlace` counter per
   * player, the player whose turn it is, the phase, and the index into
   * ShipSizes of the ship being placed.
   */
  datatype GameState = GameState(
    grids: seq<Grid>,
    shipsToPlace: seq<int>,
    currentPlayer: int,
    placingPhase: bool,
    currentShipIdx: int)

  /** What every operation needs: two grids, a player 0 or 1, and while placing an index into ShipSizes. */
  predicate Inv(s: GameState) {
    && |s.grids| == 2 && WellFormed(s.grids[0]) && WellFormed(s.grids[1])
    && |s.shipsToPlace| == 2
    && (s.currentPlayer == 0 || s.currentPlayer == 1)
    && (s.placingPhase ==> 0 <= s.currentShipIdx < ShipsCount)
  }

  /** The state at start-up: both grids empty, player 0 places the first ship. */
  function Initial(): (s: GameState)
    ensures Inv(s)
    ensures s.placingPhase && s.currentPlayer == 0 && s.currentShipIdx == 0
    ensures forall p, y, x :: 0 <= p < 2 && 0 <= y < GridSize && 0 <= x < GridSize ==> s.grids[p][y][x] == Empty
  {
    GameState([EmptyGrid(), EmptyGrid()], [ShipsCount, ShipsCount], 0, true, 0)
  }

  /**
   * A click on cell `pos` of the current player's own grid while placing.
   * The ship ShipSizes[currentShipIdx] goes horizontally from `pos` if it
   * fits on Empty cells, otherwise nothing happens. After a player's last
   * ship, the turn passes with `1 - currentPlayer`; when that yields player
   * 0 again, both players are done and firing starts with player 0.
   */
  function PlacementClick(s: GameState, pos: GridPos): (s': GameState)
    requires Inv(s) && s.placingPhase && InGrid(pos)
    ensures Inv(s')
    ensures !CanPlace(s.grids[s.currentPlayer], pos, ShipSizes[s.currentShipIdx]) ==> s' == s
    ensures CanPlace(s.grids[s.currentPlayer], pos, ShipSizes[s.currentShipIdx]) ==>
      && s'.grids[1 - s.currentPlayer] == s.grids[1 - s.currentPlayer]
      && (forall y, x :: 0 <= y < GridSize && 0 <= x < GridSize ==>
            s'.grids[s.currentPlayer][y][x] ==
              if y == pos.y && pos.x <= x < pos.x + ShipSizes[s.currentShipIdx] then Ship
              else s.grids[s.currentPlayer][y][x])
    ensures CanPlace(s.grids[s.currentPlayer], pos, ShipSizes[s.currentShipIdx]) ==>
      if s.currentShipIdx + 1 < ShipsCount then
        && s'.placingPhase && s'.currentPlayer == s.currentPlayer
        && s'.currentShipIdx == s.currentShipIdx + 1 && s'.shipsToPlace == s.shipsToPlace
      else if s.currentPlayer == 0 then
        && s'.placingPhase && s'.currentPlayer == 1 && s'.currentShipIdx == 0
        && s'.shipsToPlace == s.shipsToPlace[1 := ShipsCount]
      else
        && !s'.placingPhase && s'.currentPlayer == 0 && s'.currentShipIdx == 0
        && s'.shipsToPlace == s.shipsToPlace[0 := ShipsCount]
  {
    var shipLen := ShipSizes[s.currentShipIdx];
    var board := s.grids[s.currentPlayer];
    if !CanPlace(board, pos, shipLen) then s
    else
      var grids := s.grids[s.currentPlayer := Place(board, pos, shipLen)];
      var shipIdx := s.currentShipIdx + 1;
      if shipIdx < ShipsCount then s.(grids := grids, currentShipIdx := shipIdx)
      else
        var next := 1 - s.currentPlayer;
        var shipsToPlace := s.shipsToPlace[next := ShipsCount];
        if next == 0 then GameState(grids, shipsToPlace, 0, false, 0)
        else GameState(grids, shipsToPlace, next, true, 0)
  }

  /**
   * A click on cell `pos` of the opponent's grid while firing. An Empty
   * cell becomes Miss and the turn passes; a Ship cell becomes Hit and the
   * shooter keeps the turn; a Hit or Miss cell makes the click a no-op.
   * The shooter's own grid is never written.
   */
  function FiringClick(s: GameState, pos: GridPos): (s': GameState)
    requires Inv(s) && !s.placingPhase && InGrid(pos)
    ensures Inv(s')
    ensures && s'.grids[s.currentPlayer] == s.grids[s.currentPlayer]
            && !s'.placingPhase && s'.currentShipIdx == s.currentShipIdx
            && s'.shipsToPlace == s.shipsToPlace
    ensures s.grids[1 - s.currentPlayer][pos.y][pos.x] == Empty ==>
      && s'.grids[1 - s.currentPlayer] == SetCell(s.grids[1 - s.currentPlayer], pos, Miss)
      && s'.currentPlayer == 1 - s.currentPlayer
    ensures s.grids[1 - s.currentPlayer][pos.y][pos.x] == Ship ==>
      && s'.grids[1 - s.currentPlayer] == SetCell(s.grids[1 - s.currentPlayer], pos, Hit)
      && s'.currentPlayer == s.currentPlayer
    ensures s.grids[1 - s.currentPlayer][pos.y][pos.x] in {Hit, Miss} ==> s' == s
  {
    var opponent := 1 - s.currentPlayer;
    var target := s.grids[opponent];
    var cell := target[pos.y][pos.x];
    if cell == Empty then
      s.(grids := s.grids[opponent := Shoot(target, pos)], currentPlayer := opponent)
    else if cell == Ship then
      s.(grids := s.grids[opponent := Shoot(target, pos)])
    else s
  }

  /** The left edge of the grid a click must hit to count: one's own while placing, the opponent's while firing. */
  function ActiveOffset(s: GameState): int {
    if s.placingPhase then GridOffset(s.currentPlayer) else GridOffset(1 - s.currentPlayer)
  }

  /** One mouse-button-down event; a click outside the active grid changes nothing. */
  function Step(s: GameState, click: Pixel): (s': GameState)
    requires Inv(s)
    ensures Inv(s')
    ensures InsideGrid(click.x, click.y, ActiveOffset(s), GridY).None? ==> s' == s
  {
    match InsideGrid(click.x, click.y, ActiveOffset(s), GridY)
    case None => s
    case Some(pos) => if s.placingPhase then PlacementClick(s, pos) else FiringClick(s, pos)
  }

  /** The event loop over a finite sequence of clicks, in the order received. */
  function Run(s: GameState, clicks: seq<Pixel>): (s': GameState)
    requires Inv(s)
    ensures Inv(s')
    decreases |clicks|
  {
    if clicks == [] then s else Run(Step(s, clicks[0]), clicks[1..])
  }
}
