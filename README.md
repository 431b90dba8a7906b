# Two-player Battleship: game logic model

This project models the game logic of a hot-seat, two-player Battleship
program written in C on top of SDL. The program shows two 10×10 grids: the
left grid is player 0's board and the right grid is player 1's. Play has two
phases:

- **Placement.** Player 0 places ships of lengths 3, 2 and 1, in that order.
  Each ship lies horizontally, rightwards from the clicked cell. Then player 1
  does the same. A ship that would leave the grid or overlap another ship is
  silently refused.
- **Firing.** Players take turns clicking on the opponent's grid. An Empty
  cell becomes Miss and the turn passes. A Ship cell becomes Hit and the
  shooter plays again. A click on a Hit or Miss cell does nothing.

In both phases, clicks outside the grid that is active do nothing.

The model has two layers.

- **Pure layer.** Everything is stated on values:
  - `GridModel`: cells, positions and the grid operations.
  - `Fleet`: counting the ship cells of a grid.
  - `Layout`: mapping a click to a cell.
  - `Controller`: the game state, one click (`Step`) and a sequence of clicks (`Run`).
  - `ControllerProps`: the invariant of every reachable state and the game's rules as lemmas.
- **Imperative layer.** This layer has the program's own shape:
  - `BoardModel.Board` holds a `cells` array (`array2<CellState>`) that is written in place by loops, plus the `shipsToPlace` counter.
  - `GameLoop.Game` holds the two boards and the scalars `currentPlayer`, `placingPhase` and `currentShipIdx`, and changes them click by click.

  Each method of `Game` is proved to change the state exactly as the pure
  function says, for example `State() == Step(old(State()), click)`. The
  object invariant `Valid()` includes `Reachable(State())`: every state the
  running game can be in satisfies the fleet invariant below.

Properties proved:

- **Placement acceptance.** A placement is accepted exactly when the ship
  fits: `pos.x + len <= 10` and every covered cell is Empty. The feasibility
  loop never reads a column past 9.
- **Accepted placement.** It writes Ship into exactly the covered cells. The
  other board does not change. Then either the ship index advances, or the
  turn passes to player 1, or (after player 1's last ship) firing starts with
  player 0.
- **Rejected placement, or a click outside the active grid.** Nothing
  changes.
- **Firing.** Empty becomes Miss and the turn passes. Ship becomes Hit and
  the turn stays. Hit and Miss are left alone. The shooter's own board is
  never written.
- **Permitted cell changes.** One click moves a cell at most one step:
  Empty→Ship, Empty→Miss or Ship→Hit. Over any sequence of clicks a cell
  therefore only goes Empty→Ship, Empty→Miss, Ship→Hit, or Empty→Ship→Hit.
  Hit and Miss never change again.
- **Fleet invariant.** While player 0 places, its board has exactly as many
  ship cells as the ships placed so far, and player 1's board has none.
  While player 1 places, player 0's board holds the complete fleet of 6
  cells. Once firing starts, both boards hold 6 Ship or Hit cells, and
  nothing is ever fired at during placement.
- **Dead counter.** The `ships_to_place` counters are only ever assigned
  `ships_count` (3) and never read, so they stay 3 forever.
- **Click mapping.** `inside_grid` returns a cell exactly when the pixel is
  inside the grid's 300×300 square. The cell is then in 0..9 on both axes
  and is the one whose 30×30 slot holds the pixel. (A cell's slot is the
  30×30 area at its grid position; the 28×28 square drawn for the cell is the
  slot's top-left part, and the rest is the gap between cells.) The two grids do not
  overlap, so while firing a click on one's own grid is ignored.

Details of the source the model keeps as written:

- The end of placement is detected by computing `1 - current_player` and testing whether the result is 0 (incercare.c:92-97).
- A shot reads the cell and branches on it (incercare.c:111-119), so `Board.ResolveShot` returns the cell's previous state and the controller branches on that.
- `ships_to_place` is never decremented (incercare.c:48, 93); the model keeps it constant.
- The end-of-placement test is `>=` (incercare.c:89); under `Inv` it agrees with `==`.

Pixels are whole numbers in the model, while the window system delivers
`float` coordinates. This loses nothing. The grid offsets and the cell size
are integers, so for a real coordinate `m` both of these hold:
- `m < off` if and only if `floor(m) < off`, and likewise for the upper bound.
- `(int)((m - off) / 30)` equals `(floor(m) - off) / 30` whenever `m >= off`.

So a fractional click maps to the same cell as its integer part.

## Model

| member | source | states |
|---|---|---|
| `GridModel.Place` | incercare.c:85-87 | the placed grid has Ship in exactly the cells (pos.y, pos.x .. pos.x+len-1) and every other cell as before |
| `GridModel.Shoot` | incercare.c:111-119 | a shot turns an Empty cell into Miss and a Ship cell into Hit, leaves a Hit or Miss grid unchanged, and never touches another cell |
| `GridModel.Displayed` | incercare.c:158-160 | with ships hidden a cell never shows as Ship; a displayed cell differs from the real one only by showing a Ship as Empty |
| `Fleet.EmptyGridFleet` | incercare.c:44-49 | a freshly initialised board has no ship cell |
| `Fleet.PlaceAddsFleet` | incercare.c:74-87 | an accepted placement adds exactly the ship's length to the board's count of Ship/Hit cells, because all covered cells were Empty |
| `Fleet.ShootKeepsFleet` | incercare.c:111-119 | a shot never changes a board's count of Ship/Hit cells |
| `BoardModel.Board.constructor` | incercare.c:44-49 | the initialisation loops leave every one of the 100 cells Empty and set `shipsToPlace` to the number of ships |
| `BoardModel.Board.CanPlaceHorizontal` | incercare.c:74-81 | the flag loop returns true iff pos.x + len <= 10 and every cell (pos.y, pos.x+i), i < len, is Empty; it reads only in-range columns and writes nothing |
| `BoardModel.Board.PlaceShip` | incercare.c:85-87 | the write loop turns the board into `Place` of the old board: exactly the covered cells become Ship |
| `BoardModel.Board.ResolveShot` | incercare.c:111-119 | returns the cell's previous state and turns the board into `Shoot` of the old board |
| `Layout.GridOffset` | incercare.c:69 | player 0's grid is the left one, player 1's the right one |
| `Layout.InsideGrid` | incercare.c:185-191 | returns a cell iff offset <= m < offset + 300 on both axes; that cell is in 0..9 on both axes and its 30×30 slot holds the pixel |
| `Layout.InsideGridOfCell` | incercare.c:185-190 | every pixel of a cell's 30×30 slot maps back to that cell (the converse of `InsideGrid`) |
| `Layout.CellOrigin` | incercare.c:167 | the top-left pixel of a cell's slot, where its square is drawn, maps back to that cell |
| `Layout.GridsDisjoint` | incercare.c:7-11 | no pixel lies in both the left and the right grid |
| `Controller.Initial` | incercare.c:42-53 | start-up state: both boards all Empty, placing, player 0, ship index 0 |
| `Controller.PlacementClick` | incercare.c:66-101 | a refused placement changes nothing; an accepted one writes Ship into exactly the covered cells of the current player's board and leaves the other board; then the ship index advances, or player 0 hands over to player 1 with index 0, or player 1's last ship starts firing with player 0; the invariant (player 0 or 1, index inside ship_sizes) is kept |
| `Controller.FiringClick` | incercare.c:103-121 | only the opponent's board is written; Empty→Miss passes the turn, Ship→Hit keeps it, a Hit or Miss cell makes the click a no-op |
| `Controller.Step` | incercare.c:62-121 | one click keeps the invariant, and a click outside the active grid (own grid while placing, opponent's while firing) changes nothing |
| `Controller.Run` | incercare.c:56-123 | any finite sequence of clicks keeps the invariant, so `ship_sizes[current_ship_idx]` is always in bounds |
| `ControllerProps.FleetSize` | incercare.c:25-26 | the fleet covers 3 + 2 + 1 = 6 cells |
| `ControllerProps.InitialReachable` | incercare.c:42-53 | the start-up state satisfies the reachability invariant |
| `ControllerProps.PlacementPreservesReachable` | incercare.c:66-101 | a placement click keeps the fleet invariant and the `ships_to_place` values |
| `ControllerProps.FiringPreservesReachable` | incercare.c:103-121 | a firing click keeps the fleet invariant |
| `ControllerProps.StepPreservesReachable` | incercare.c:62-121 | any click keeps the reachability invariant |
| `ControllerProps.RunPreservesReachable` | incercare.c:56-123 | any sequence of clicks keeps the reachability invariant |
| `ControllerProps.ReachableFromStart` | incercare.c:48 | whatever clicks arrive, both `ships_to_place` stay 3 (they are only ever assigned ships_count, line 93), and in the firing phase each board holds exactly 6 Ship/Hit cells |
| `ControllerProps.StepCellsEvolve` | incercare.c:83-119 | one click moves every cell of both boards by at most one step: Empty→Ship, Empty→Miss or Ship→Hit (`OneMove`) |
| `ControllerProps.RunCellsEvolve` | incercare.c:56-123 | over any sequence of clicks, cells only move along Empty→Ship/Miss/Hit or Ship→Hit, and Hit and Miss are absorbing (`Evolves`, the closure of the one-click steps) |
| `GridModel.EvolvesClosesOneMove` | incercare.c:83-119 | `Evolves` is exactly the reflexive-transitive closure of the one-click cell steps: it contains them, is transitive, and each of its pairs is at most two one-click steps |
| `ControllerProps.PlaceOnFreshRow` | incercare.c:69-98 | while placing, clicking column 0 of an all-Empty row of one's own grid is accepted: the other board and the other rows stay, and the ship index advances or the turn/phase changes as after the last ship |
| `ControllerProps.FiringIsFinal` | incercare.c:94-97 | once firing has started the game never returns to placement |
| `ControllerProps.OwnGridIgnoredWhileFiring` | incercare.c:105-110 | while firing, a click on one's own grid changes nothing |
| `ControllerProps.OtherGridIgnoredWhilePlacing` | incercare.c:67-72 | while placing, a click on the other player's grid changes nothing |
| `ControllerProps.PlacementByPixel` | incercare.c:69-72 | while placing, any pixel of the 30×30 slot of a cell of one's own grid acts as a placement at that cell |
| `ControllerProps.FiringByPixel` | incercare.c:106-110 | while firing, any pixel of the 30×30 slot of a cell of the opponent's grid acts as a shot at that cell |
| `ControllerProps.FirstShipScenario` | incercare.c:72-88 | player 0's first click on cell (0,0) puts Ship on (0,0),(1,0),(2,0), leaves every other cell of both boards Empty, and advances the ship index to 1 |
| `ControllerProps.OverhangScenario` | incercare.c:74-83 | a length-3 ship clicked at column 8 is refused (8+3 > 10) and nothing changes |
| `ControllerProps.FullPlacementScenario` | incercare.c:88-98 | three accepted clicks for player 0 and then three for player 1 end placement: firing, player 0, index 0 |
| `ControllerProps.HitScenario` | incercare.c:115-118 | firing at a Ship cell (5,5) makes it Hit and player 0 keeps the turn |
| `ControllerProps.MissScenario` | incercare.c:112-114 | firing at an Empty cell (3,3) makes it Miss and the turn passes to player 1 |
| `GameLoop.Game.constructor` | incercare.c:42-53 | the game starts in the initial state, with two distinct boards |
| `GameLoop.Game.PlaceAt` | incercare.c:66-101 | the in-place placement branch changes the state exactly as `PlacementClick` and keeps the invariant |
| `GameLoop.Game.FireAt` | incercare.c:103-121 | the in-place firing branch changes the state exactly as `FiringClick` and keeps the invariant |
| `GameLoop.Game.HandleClick` | incercare.c:62-121 | one mouse-button-down event changes the state exactly as `Step` |
| `GameLoop.Game.HandleClicks` | incercare.c:56-61 | the event loop, given the clicks in order, changes the state exactly as `Run` |

## Left out

- SDL start-up and shutdown are not modelled (incercare.c:34-40, 146-148): window and renderer creation, the fatal-error exit, and their destruction. They are calls into a foreign library.
- Event polling, the QUIT event and the `running` flag are not modelled (incercare.c:56-61). The input is a finite sequence of clicks, handled in order.
- The frame delay `SDL_Delay` is not modelled (incercare.c:143). It only paces frames.
- Rendering is not modelled (incercare.c:125-142, 153-183): the background, `draw_grid`, `draw_cell` and the turn-indicator colours are foreign calls. Only two pieces of logic from it are kept: the hiding of ships (`GridModel.Displayed`) and the top-left corner of a cell's slot, where its square is drawn (`Layout.CellOrigin`).
- Fractional mouse coordinates are not modelled. Pixels are integers; the argument above shows this maps every click to the same cell.
- A win or end condition does not exist in the program, so none is modelled.
