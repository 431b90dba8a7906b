/**
 * Properties of the controller over any number of clicks: the invariant of
 * every state reachable from start-up, the permitted cell transitions, and
 * the worked scenarios of the game's rules.
 */
module ControllerProps {
  import opened GridModel
  import opened Fleet
  import opened Layout
  import opened Controller

  /** Total length of the first `k` ships of ShipSizes. */
  function PlacedLength(k: int): int
    requires 0 <= k <= ShipsCount
  {
    if k == 0 then 0 else PlacedLength(k - 1) + ShipSizes[k - 1]
  }

  /** Ship cells a complete fleet covers. */
  lemma FleetSize()
    ensures PlacedLength(ShipsCount) == 6
  {
  }

  /** A grid on which nothing has been fired at yet. */
  predicate NoShots(g: Grid)
    requires WellFormed(g)
  {
    forall y, x :: 0 <= y < GridSize && 0 <= x < GridSize ==> g[y][x] in {Empty, Ship}
  }

  /**
   * The invariant of every state reachable from Initial(): the
   * `shipsToPlace` counters never leave ShipsCount; nothing is fired at
   * while placing; the placing player's grid holds exactly the ships placed
   * so far, player 1's grid is untouched while player 0 places, and once
   * firing starts both grids hold a complete fleet of Ship and Hit cells.
   */
  predicate Reachable(s: GameState) {
    && Inv(s)
    && s.shipsToPlace == [ShipsCount, ShipsCount]
    && (s.placingPhase ==> NoShots(s.grids[0]) && NoShots(s.grids[1]))
    && (s.placingPhase && s.currentPlayer == 0 ==>
          && GridFleet(s.grids[0]) == PlacedLength(s.currentShipIdx)
          && GridFleet(s.grids[1]) == 0)
    && (s.placingPhase && s.currentPlayer == 1 ==>
          && GridFleet(s.grids[0]) == PlacedLength(ShipsCount)
          && GridFleet(s.grids[1]) == PlacedLength(s.currentShipIdx))
    && (!s.placingPhase ==>
          && s.currentShipIdx == 0
          && GridFleet(s.grids[0]) == PlacedLength(ShipsCount)
          && GridFleet(s.grids[1]) == PlacedLength(ShipsCount))
  }

  lemma InitialReachable()
    ensures Reachable(Initial())
  {
    EmptyGridFleet();
  }

  lemma PlacementPreservesReachable(s: GameState, pos: GridPos)
    requires Reachable(s) && s.placingPhase && InGrid(pos)
    ensures Reachable(PlacementClick(s, pos))
  {
    var g := s.grids[s.currentPlayer];
    var len := ShipSizes[s.currentShipIdx];
    if CanPlace(g, pos, len) {
      PlaceAddsFleet(g, pos, len);
      var s' := PlacementClick(s, pos);
      assert s'.grids[s.currentPlayer] == Place(g, pos, len) by {
        GridExt(s'.grids[s.currentPlayer], Place(g, pos, len));
      }
      assert NoShots(s'.grids[s.currentPlayer]);
    }
  }

  lemma FiringPreservesReachable(s: GameState, pos: GridPos)
    requires Reachable(s) && !s.placingPhase && InGrid(pos)
    ensures Reachable(FiringClick(s, pos))
  {
    var opponent := 1 - s.currentPlayer;
    ShootKeepsFleet(s.grids[opponent], pos);
  }

  lemma StepPreservesReachable(s: GameState, click: Pixel)
    requires Reachable(s)
    ensures Reachable(Step(s, click))
  {
    match InsideGrid(click.x, click.y, ActiveOffset(s), GridY)
    case None =>
    case Some(pos) =>
      if s.placingPhase {
        PlacementPreservesReachable(s, pos);
      } else {
        FiringPreservesReachable(s, pos);
      }
  }

  lemma {:induction false} RunPreservesReachable(s: GameState, clicks: seq<Pixel>)
    requires Reachable(s)
    ensures Reachable(Run(s, clicks))
    decreases |clicks|
  {
    if clicks != [] {
      StepPreservesReachable(s, clicks[0]);
      RunPreservesReachable(Step(s, clicks[0]), clicks[1..]);
    }
  }

  /**
   * Whatever clicks arrive, the `shipsToPlace` counters stay at ShipsCount,
   * and every state in the firing phase has a complete fleet on each grid.
   */
  lemma ReachableFromStart(clicks: seq<Pixel>)
    ensures var s := Run(Initial(), clicks);
      && s.shipsToPlace == [ShipsCount, ShipsCount]
      && (!s.placingPhase ==> GridFleet(s.grids[0]) == 6 && GridFleet(s.grids[1]) == 6)
  {
    InitialReachable();
    RunPreservesReachable(Initial(), clicks);
    FleetSize();
  }

  /** One click moves each cell of each grid only Empty to Ship, Empty to Miss or Ship to Hit. */
  lemma StepCellsEvolve(s: GameState, click: Pixel)
    requires Inv(s)
    ensures forall p, y, x :: 0 <= p < 2 && 0 <= y < GridSize && 0 <= x < GridSize ==>
      OneMove(s.grids[p][y][x], Step(s, click).grids[p][y][x])
  {
  }

  /**
   * Over any sequence of clicks a cell only goes Empty to Ship, Miss or
   * Hit, or Ship to Hit; Hit and Miss are never changed again.
   */
  lemma {:induction false} RunCellsEvolve(s: GameState, clicks: seq<Pixel>)
    requires Inv(s)
    ensures forall p, y, x :: 0 <= p < 2 && 0 <= y < GridSize && 0 <= x < GridSize ==>
      Evolves(s.grids[p][y][x], Run(s, clicks).grids[p][y][x])
    decreases |clicks|
  {
    if clicks != [] {
      var t := Step(s, clicks[0]);
      StepCellsEvolve(s, clicks[0]);
      RunCellsEvolve(t, clicks[1..]);
      forall p, y, x | 0 <= p < 2 && 0 <= y < GridSize && 0 <= x < GridSize
        ensures Evolves(s.grids[p][y][x], Run(s, clicks).grids[p][y][x])
      {
        EvolvesClosesOneMove(s.grids[p][y][x], t.grids[p][y][x], Run(t, clicks[1..]).grids[p][y][x]);
      }
    }
  }

  /** Once firing has started the game never returns to placement. */
  lemma {:induction false} FiringIsFinal(s: GameState, clicks: seq<Pixel>)
    requires Inv(s) && !s.placingPhase
    ensures !Run(s, clicks).placingPhase
    decreases |clicks|
  {
    if clicks != [] {
      FiringIsFinal(Step(s, clicks[0]), clicks[1..]);
    }
  }

  /** While firing, a click on one's own grid is ignored. */
  lemma OwnGridIgnoredWhileFiring(s: GameState, click: Pixel)
    requires Inv(s) && !s.placingPhase
    requires InsideGrid(click.x, click.y, GridOffset(s.currentPlayer), GridY).Some?
    ensures Step(s, click) == s
  {
    GridsDisjoint(click.x, click.y);
  }

  /** While placing, a click on the other player's grid is ignored. */
  lemma OtherGridIgnoredWhilePlacing(s: GameState, click: Pixel)
    requires Inv(s) && s.placingPhase
    requires InsideGrid(click.x, click.y, GridOffset(1 - s.currentPlayer), GridY).Some?
    ensures Step(s, click) == s
  {
    GridsDisjoint(click.x, click.y);
  }

  /** While placing, any pixel of the 30x30 slot of `pos` on one's own grid places at `pos`. */
  lemma PlacementByPixel(s: GameState, pos: GridPos, click: Pixel)
    requires Inv(s) && s.placingPhase && InGrid(pos)
    requires InCell(click.x, click.y, pos, GridOffset(s.currentPlayer), GridY)
    ensures Step(s, click) == PlacementClick(s, pos)
  {
    InsideGridOfCell(click.x, click.y, pos, GridOffset(s.currentPlayer), GridY);
  }

  /** While firing, any pixel of the 30x30 slot of `pos` on the opponent's grid fires at `pos`. */
  lemma FiringByPixel(s: GameState, pos: GridPos, click: Pixel)
    requires Inv(s) && !s.placingPhase && InGrid(pos)
    requires InCell(click.x, click.y, pos, GridOffset(1 - s.currentPlayer), GridY)
    ensures Step(s, click) == FiringClick(s, pos)
  {
    InsideGridOfCell(click.x, click.y, pos, GridOffset(1 - s.currentPlayer), GridY);
  }

  /** Player 0's first click on cell (0, 0) places the length-3 ship on (0, 0), (1, 0) and (2, 0) and nowhere else. */
  lemma FirstShipScenario()
    ensures var s := Step(Initial(), Pixel(LeftGridX + 5, GridY + 5));
      && s.placingPhase && s.currentPlayer == 0 && s.currentShipIdx == 1
      && s.grids[0][0][..4] == [Ship, Ship, Ship, Empty]
      && s.grids[0] == Place(EmptyGrid(), GridPos(0, 0), 3)
      && s.grids[1] == EmptyGrid()
  {
    var pos := GridPos(0, 0);
    PlacementByPixel(Initial(), pos, Pixel(LeftGridX + 5, GridY + 5));
    assert CanPlace(EmptyGrid(), pos, 3);
    var s := Step(Initial(), Pixel(LeftGridX + 5, GridY + 5));
    GridExt(s.grids[0], Place(EmptyGrid(), pos, 3));
  }

  /** A length-3 ship clicked at column 8 would end past column 9, so nothing changes. */
  lemma OverhangScenario()
    ensures Step(Initial(), Pixel(LeftGridX + 8 * CellSize, GridY)) == Initial()
  {
    PlacementByPixel(Initial(), GridPos(8, 0), Pixel(LeftGridX + 8 * CellSize, GridY));
  }

  /**
   * Three accepted clicks per player end the placement phase: player 0
   * places on rows 0, 1 and 2 of the left grid, then player 1 does the same
   * on the right grid, and player 0 fires first.
   */
  lemma FullPlacementScenario()
    ensures var s := Run(Initial(), [
        Pixel(LeftGridX, GridY), Pixel(LeftGridX, GridY + CellSize), Pixel(LeftGridX, GridY + 2 * CellSize),
        Pixel(RightGridX, GridY), Pixel(RightGridX, GridY + CellSize), Pixel(RightGridX, GridY + 2 * CellSize)]);
      !s.placingPhase && s.currentPlayer == 0 && s.currentShipIdx == 0
  {
    var clicks := [
        Pixel(LeftGridX, GridY), Pixel(LeftGridX, GridY + CellSize), Pixel(LeftGridX, GridY + 2 * CellSize),
        Pixel(RightGridX, GridY), Pixel(RightGridX, GridY + CellSize), Pixel(RightGridX, GridY + 2 * CellSize)];
    var s0 := Initial();
    var s1 := Step(s0, clicks[0]);
    PlaceOnFreshRow(s0, 0);
    var s2 := Step(s1, clicks[1]);
    PlaceOnFreshRow(s1, 1);
    var s3 := Step(s2, clicks[2]);
    PlaceOnFreshRow(s2, 2);
    assert s3.currentPlayer == 1 && s3.placingPhase;
    var s4 := Step(s3, clicks[3]);
    PlaceOnFreshRow(s3, 0);
    var s5 := Step(s4, clicks[4]);
    PlaceOnFreshRow(s4, 1);
    var s6 := Step(s5, clicks[5]);
    PlaceOnFreshRow(s5, 2);
    assert Run(s0, clicks) == Run(s1, clicks[1..]);
    assert Run(s1, clicks[1..]) == Run(s2, clicks[2..]) by { assert clicks[1..][1..] == clicks[2..]; }
    assert Run(s2, clicks[2..]) == Run(s3, clicks[3..]) by { assert clicks[2..][1..] == clicks[3..]; }
    assert Run(s3, clicks[3..]) == Run(s4, clicks[4..]) by { assert clicks[3..][1..] == clicks[4..]; }
    assert Run(s4, clicks[4..]) == Run(s5, clicks[5..]) by { assert clicks[4..][1..] == clicks[5..]; }
    assert Run(s5, clicks[5..]) == s6 by { assert clicks[5..][1..] == []; }
  }

  /**
   * Clicking the first cell of row `row` of one's own grid, when that row is
   * still Empty, places the current ship there.
   */
  lemma PlaceOnFreshRow(s: GameState, row: int)
    requires Inv(s) && s.placingPhase && 0 <= row < GridSize
    requires forall x :: 0 <= x < GridSize ==> s.grids[s.currentPlayer][row][x] == Empty
    ensures var s' := Step(s, Pixel(GridOffset(s.currentPlayer), GridY + row * CellSize));
      && s'.grids[1 - s.currentPlayer] == s.grids[1 - s.currentPlayer]
      && (forall y, x :: 0 <= y < GridSize && y != row && 0 <= x < GridSize ==>
            s'.grids[s.currentPlayer][y][x] == s.grids[s.currentPlayer][y][x])
      && (s.currentShipIdx + 1 < ShipsCount ==>
            s'.placingPhase && s'.currentPlayer == s.currentPlayer && s'.currentShipIdx == s.currentShipIdx + 1)
      && (s.currentShipIdx + 1 == ShipsCount ==>
            && s'.currentShipIdx == 0 && s'.currentPlayer == 1 - s.currentPlayer
            && s'.placingPhase == (s.currentPlayer == 0))
  {
    var pos := GridPos(0, row);
    PlacementByPixel(s, pos, Pixel(GridOffset(s.currentPlayer), GridY + row * CellSize));
    assert CanPlace(s.grids[s.currentPlayer], pos, ShipSizes[s.currentShipIdx]);
  }

  /** With a Ship at (5, 5) of player 1's grid, player 0 firing there hits it and keeps the turn. */
  lemma HitScenario(s: GameState)
    requires Inv(s) && !s.placingPhase && s.currentPlayer == 0 && s.grids[1][5][5] == Ship
    ensures var s' := Step(s, Pixel(RightGridX + 5 * CellSize, GridY + 5 * CellSize));
      s'.grids[1][5][5] == Hit && s'.currentPlayer == 0 && s'.grids[0] == s.grids[0]
  {
    FiringByPixel(s, GridPos(5, 5), Pixel(RightGridX + 5 * CellSize, GridY + 5 * CellSize));
  }

  /** With (3, 3) of player 1's grid Empty, player 0 firing there misses and the turn passes to player 1. */
  lemma MissScenario(s: GameState)
    requires Inv(s) && !s.placingPhase && s.currentPlayer == 0 && s.grids[1][3][3] == Empty
    ensures var s' := Step(s, Pixel(RightGridX + 3 * CellSize, GridY + 3 * CellSize));
      s'.grids[1][3][3] == Miss && s'.currentPlayer == 1 && s'.grids[0] == s.grids[0]
  {
    FiringByPixel(s, GridPos(3, 3), Pixel(RightGridX + 3 * CellSize, GridY + 3 * CellSize));
  }
}
