/**
 Concrete games on the 600 x 600 pixel board the application opens
 (24 x 24 tiles of 25 pixels).
 */
module Scenarios {
  import opened Tiles
  import opened Board
  import opened SnakeGame

  const Side: int := 600

  /** A head on column 0 heading left leaves the board: the head ends on
      column -1 and the game is over. */
  lemma LeftEdgeEndsGame()
    ensures var s := State(Side, Side, Tile(0, 5), [], Tile(10, 10), Velocity(-1, 0), false);
            var r := Move(s, Tile(0, 0));
            r.head == Tile(-1, 5) && r.gameOver
  {
  }

  /** At the start the snake heads right, so pressing Left is ignored while
      pressing Up turns it. */
  lemma StartIgnoresReverseKey(first: Tile)
    requires InGrid(Side, Side, first)
    ensures Press(Init(Side, Side, first), Left).velocity == Velocity(1, 0)
    ensures Press(Init(Side, Side, first), Up).velocity == Velocity(0, -1)
  {
  }

  /** Each press is checked only against the velocity stored when it
      arrives: moving right, Up then Left before the next tick sets the exact
      reverse, and that tick puts the head on the body. */
  lemma TwoPressesCanReverse()
    ensures var s := State(Side, Side, Tile(5, 5), [Tile(4, 5), Tile(3, 5)], Tile(10, 10), Velocity(1, 0), false);
            var p := Press(Press(s, Up), Left);
            var r := Move(p, Tile(0, 0));
            && p.velocity == Reverse(s.velocity)
            && r.head == Tile(4, 5) && r.body[1] == r.head && r.gameOver
  {
  }

  /** A five-cell snake turning down into its own body ends the game. */
  lemma TurningIntoBodyEndsGame()
    ensures var s := State(Side, Side, Tile(5, 5), [Tile(4, 5), Tile(4, 6), Tile(5, 6), Tile(6, 6)],
                           Tile(10, 10), Velocity(0, 1), false);
            var r := Move(s, Tile(0, 0));
            r.head == Tile(5, 6) && r.body[3] == r.head && r.gameOver
  {
  }

  /** Food may be placed on the snake: no cell is excluded from the draw. */
  lemma FoodMayLandOnBody()
    ensures var s := State(Side, Side, Tile(3, 3), [Tile(2, 3)], Tile(3, 3), Velocity(1, 0), false);
            var r := Move(s, Tile(3, 3));
            r.food in r.body && !r.gameOver
  {
  }

  /** Eating with an empty body: the appended segment is shifted onto the
      head's old cell, which is the food cell, so the one new segment sits
      where the food was. */
  lemma EatingWithEmptyBody(head: Tile, v: Velocity, draw: Tile)
    requires InGrid(Side, Side, draw)
    ensures var s := State(Side, Side, head, [], head, v, false);
            Move(s, draw).body == [s.food]
  {
  }

  /** A tick after the game is over still moves the snake; only the host
      stops ticking. */
  lemma MoveAfterGameOverStillMoves()
    ensures var s := State(Side, Side, Tile(-1, 5), [], Tile(10, 10), Velocity(-1, 0), true);
            var r := Move(s, Tile(0, 0));
            r.gameOver && r.head == Tile(-2, 5) && r.head != s.head
  {
  }

  /** The pixel bounds test lets the head onto column 24 of a 24-column
      grid without ending the game; the grid test ends it. */
  lemma LiteralCheckMissesLastColumn()
    ensures var s := State(Side, Side, Tile(23, 5), [], Tile(10, 10), Velocity(1, 0), false);
            var r := Move(s, Tile(0, 0));
            && Columns(Side) == 24
            && r.head == Tile(24, 5)
            && !InGrid(Side, Side, r.head)
            && !r.gameOver
            && MoveInGrid(s, Tile(0, 0)).gameOver
  {
  }
}
