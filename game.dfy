/**
 * The game as the program runs it: two boards updated in place and the
 * three scalars of the turn state, changed click by click. Every method is
 * proved to act on the state exactly as the pure controller says.
 */
module GameLoop {
  import opened GridModel
  import opened BoardModel
  import opened Layout
  import opened Controller
  import opened ControllerProps

  class Game {
    /** boards[0] belongs to player 0 (left grid), boards[1] to player 1 (right grid). */
    const boards: seq<Board>
    var currentPlayer: int
    var placingPhase: bool
    var currentShipIdx: int
    ghost const Repr: set<object>

    /** The shape that never changes: two distinct boards with distinct cell arrays. */
    ghost predicate Shape() {
      && |boards| == 2
      && boards[0] != boards[1] && boards[0].cells != boards[1].cells
      && boards[0].Valid() && boards[1].Valid()
      && Repr == {this, boards[0], boards[1], boards[0].cells, boards[1].cells}
    }

    /** The game state as a value. */
    ghost function State(): GameState
      requires Shape()
      reads Repr
    {
      GameState(
        [boards[0].View(), boards[1].View()],
        [boards[0].shipsToPlace, boards[1].shipsToPlace],
        currentPlayer, placingPhase, currentShipIdx)
    }

    /** The object invariant: the state is one the game can reach from start-up. */
    ghost predicate Valid()
      reads this, Repr
    {
      Shape() && Reachable(State())
    }

    /** Start-up: two empty boards, player 0 places the first ship. */
    constructor ()
      ensures Valid() && fresh(Repr)
      ensures State() == Initial()
    {
      var b0 := new Board();
      var b1 := new Board();
      boards := [b0, b1];
      currentPlayer := 0;
      placingPhase := true;
      currentShipIdx := 0;
      Repr := {this, b0, b1, b0.cells, b1.cells};
      new;
      assert State() == Initial();
      InitialReachable();
    }

    /** A placement click on cell `pos` of the current player's grid. */
    method PlaceAt(pos: GridPos)
      requires Valid() && placingPhase && InGrid(pos)
      modifies Repr
      ensures Valid()
      ensures State() == PlacementClick(old(State()), pos)
    {
      ghost var s := State();
      var board := boards[currentPlayer];
      var shipLen := ShipSizes[currentShipIdx];
      var canPlace := board.CanPlaceHorizontal(pos, shipLen);
      if canPlace {
        board.PlaceShip(pos, shipLen);
        assert [boards[0].View(), boards[1].View()]
            == s.grids[s.currentPlayer := Place(s.grids[s.currentPlayer], pos, shipLen)];
        currentShipIdx := currentShipIdx + 1;
        if currentShipIdx >= ShipsCount {
          currentPlayer := 1 - currentPlayer;
          currentShipIdx := 0;
          boards[currentPlayer].shipsToPlace := ShipsCount;
          if currentPlayer == 0 {
            placingPhase := false;
            currentPlayer := 0;
          }
        }
      }
      assert State() == PlacementClick(s, pos);
      PlacementPreservesReachable(old(State()), pos);
    }

    /** A firing click on cell `pos` of the opponent's grid. */
    method FireAt(pos: GridPos)
      requires Valid() && !placingPhase && InGrid(pos)
      modifies Repr
      ensures Valid()
      ensures State() == FiringClick(old(State()), pos)
    {
      var opponent := 1 - currentPlayer;
      var cell := boards[opponent].ResolveShot(pos);
      if cell == Empty {
        currentPlayer := opponent;
      }
      FiringPreservesReachable(old(State()), pos);
    }

    /** One mouse-button-down event at window pixel `click`. */
    method HandleClick(click: Pixel)
      requires Valid()
      modifies Repr
      ensures Valid()
      ensures State() == Step(old(State()), click)
    {
      if placingPhase {
        var xOffset := if currentPlayer == 0 then LeftGridX else RightGridX;
        var pos := InsideGrid(click.x, click.y, xOffset, GridY);
        if pos.Some? {
          PlaceAt(pos.value);
        }
      } else {
        var opponent := 1 - currentPlayer;
        var xOffset := if opponent == 0 then LeftGridX else RightGridX;
        var pos := InsideGrid(click.x, click.y, xOffset, GridY);
        if pos.Some? {
          FireAt(pos.value);
        }
      }
    }

    /** The event loop: the clicks handled one by one, in the order received. */
    method HandleClicks(clicks: seq<Pixel>)
      requires Valid()
      modifies Repr
      ensures Valid()
      ensures State() == Run(old(State()), clicks)
    {
      var i := 0;
      while i < |clicks|
        invariant 0 <= i <= |clicks|
        invariant Valid()
        invariant Run(old(State()), clicks) == Run(State(), clicks[i..])
      {
        ghost var before := State();
        HandleClick(clicks[i]);
        assert clicks[i..][1..] == clicks[i + 1..];
        assert Run(before, clicks[i..]) == Run(State(), clicks[i + 1..]);
        i := i + 1;
      }
    }
  }
}
