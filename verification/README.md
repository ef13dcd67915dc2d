# Snake game simulation core in Dafny

This project models the game logic of a single-player Snake game. The game
state is a snake head tile, an ordered list of body segments (nearest to the
head first), a food tile, a velocity `(vx, vy)` of one tile per tick, a
game-over flag, and the board size in pixels. Tiles are 25 pixels square.
Each timer tick runs `move`:

1. If the head is on the food, the snake eats. A segment is appended at the
   food cell and the food moves to a randomly drawn cell.
2. The body shifts from tail to head. Each segment takes its predecessor's
   cell, and the first segment takes the head's cell.
3. The head advances by the velocity.
4. If the head lands on a body segment, the game is over.
5. If the head is off the board by the game's pixel test, the game is over.

An arrow key changes the velocity. A single key press never sets the exact
reverse of the current velocity. Two presses between ticks (for example Up
then Left while moving right) can still reverse the snake onto its own body;
`Scenarios.TwoPressesCanReverse` shows this.

Files, one module each:

- `tile.dfy` (`Tiles`): tiles, velocities, the four arrow keys, tile collision.
- `board.dfy` (`Board`): the tile size, grid dimensions (Java truncating
  division), the pixel bounds test the game performs, and how that test
  relates to the grid.
- `snake_game.dfy` (`SnakeGame`): the state record, `Init`, `PlaceFood`,
  `Move`, `Press`, and `MoveInGrid`, the corrected tick (see Findings).
- `tick.dfy` (`Tick`): `move` written statement by statement, with its two
  loops, proved equal to `Move`.
- `runs.dfy` (`Runs`): games as sequences of ticks and key presses, and the
  invariants every reachable state keeps.
- `scenarios.dfy` (`Scenarios`): concrete games on the 600 x 600 board
  that `App` opens.

The random draw is replaced by a caller-supplied cell `draw`. `Move`
requires `draw` to lie in the grid only when the head is on the food,
because only then does the game draw a cell.

Three behaviours of `move` and the constructor that are easy to misread:

- A tick after game over is not a no-op. `move` still shifts the body and
  advances the head; only the timer is stopped, by `actionPerformed`.
  `Scenarios.MoveAfterGameOverStillMoves` shows this.
- The first food cell comes from the random draw (`placeFood()` in the
  constructor), not from the fixed `(10, 10)`, which is overwritten.
- After an eating tick, the appended segment is itself shifted. So the new
  body is the old head followed by the whole old body. With a non-empty body
  the tail ends on the old last segment's cell; with an empty body the one
  new segment is on the food cell (the old head's cell).
  `Scenarios.EatingWithEmptyBody` shows the second case.

## Model

| member | source | states |
|---|---|---|
| Tiles.Collision | SnakeGame.java:156-158 | two tiles collide exactly when they are the same tile |
| Tiles.CollisionIsEquivalence | SnakeGame.java:156-158 | collision is reflexive, symmetric and transitive |
| Tiles.UnitIsHeading | SnakeGame.java:173-185 | every unit velocity is the heading of exactly one arrow key |
| Tiles.Heading | SnakeGame.java:173-185 | each arrow key asks for a unit velocity; Up/Down are vertical, Down/Right positive |
| Board.JavaDiv | SnakeGame.java:112-113 | the grid size `boardWidth / tileSize` uses truncating division: quotient bounds for positive and negative pixel sizes |
| Board.OffBoardAsWrittenInTiles | SnakeGame.java:149-150 | the pixel test flags a tile exactly when a coordinate is negative or strictly beyond the column count or row count |
| Board.AsWrittenFlagsOnlyOffGrid | SnakeGame.java:149-150 | every tile the pixel test flags is off the grid |
| Board.AsWrittenMissesOneColumnAndRow | SnakeGame.java:149-150 | the off-grid tiles the pixel test misses are exactly those on the column or row just past the grid |
| SnakeGame.PlaceFood | SnakeGame.java:111-114 | the food lands on a grid cell and nothing else in the state changes |
| SnakeGame.Init | SnakeGame.java:55-66 | the start state: head (5,5), empty body, heading right, food on the drawn grid cell, game running, invariant holds |
| SnakeGame.ShiftBody | SnakeGame.java:124-135 | the shift keeps the length; segment 0 takes the head's cell and segment i takes old segment i-1's cell |
| SnakeGame.Move | SnakeGame.java:117-153 | one tick. The head advances by the velocity. Eating grows the body by one, to old head plus old body, with new food on the grid. Otherwise the body shifts at the same length. Game over holds iff it already held, the head hit the body, or the pixel test flags the head. Velocity and board are untouched. The invariant is kept |
| SnakeGame.MoveInGrid | SnakeGame.java:148-152 | the corrected tick: game over iff it already held, the head hit the body, or the head left the grid; a running game keeps its head on the grid |
| SnakeGame.MoveInGridIsStricter | SnakeGame.java:148-152 | the corrected tick agrees with `Move` except that it may end the game more often, never less |
| SnakeGame.Press | SnakeGame.java:172-186 | only the velocity changes, to the key's heading or not at all. From a unit velocity it stays a unit and never becomes the reverse. The key's heading is taken exactly when it is not the reverse |
| Tick.ShiftInPlace | SnakeGame.java:124-135 | the tail-to-head in-place loop leaves each segment on its predecessor's pre-tick cell and the first on the head's |
| Tick.HitsAnySegment | SnakeGame.java:141-146 | the collision loop reports a hit exactly when the head is in the body |
| Tick.Tick | SnakeGame.java:117-153 | the statement-by-statement `move`, with its shift and collision loops, computes exactly `Move` |
| Runs.Step | SnakeGame.java:161-186 | one tick or key press keeps the board and invariant, never clears game over, and grows the score by at most one |
| Runs.Run | SnakeGame.java:161-168 | any sequence of ticks and key presses keeps the board and invariant, never clears game over, and never lowers the score |
| Runs.RunAppend | SnakeGame.java:161-168 | running two event sequences one after the other equals running their concatenation |
| Runs.ReachableKeepsInvariant | SnakeGame.java:56-66 | every state reached from the start has a unit velocity and food on the grid |
| Runs.GameOverIsFinal | SnakeGame.java:141-152 | game over is only ever set: once set, it still holds after any further ticks and key presses |
| Scenarios.LeftEdgeEndsGame | SnakeGame.java:148-152 | head (0,5) heading left on a 600-pixel board moves to (-1,5) and ends the game |
| Scenarios.StartIgnoresReverseKey | SnakeGame.java:173-181 | at the start, pressing Left is ignored and pressing Up turns the snake up |
| Scenarios.TwoPressesCanReverse | SnakeGame.java:173-181 | moving right with a three-cell snake, Up then Left before a tick sets the reverse velocity, and the next tick puts the head on the body and ends the game |
| Scenarios.TurningIntoBodyEndsGame | SnakeGame.java:141-146 | a five-cell snake turning down into its own body ends the game |
| Scenarios.FoodMayLandOnBody | SnakeGame.java:111-122 | the food may be placed on a body segment without ending the game |
| Scenarios.EatingWithEmptyBody | SnakeGame.java:119-135 | eating with an empty body leaves one segment, on the food cell |
| Scenarios.MoveAfterGameOverStillMoves | SnakeGame.java:117-139 | a tick after game over still moves the head |
| Scenarios.LiteralCheckMissesLastColumn | SnakeGame.java:149-150 | on the 24-column board, a head stepping onto column 24 does not end the game under `Move`, but does under `MoveInGrid` |

## Left out

- App.java: window construction only (frame setup, visibility, close operation); no game logic.
- Drawing (`paintComponent`, `draw`): rendering only. The score it displays is `|body|`, which `Runs.Run` bounds.
- The Swing timer and `actionPerformed`: ticking is modelled as repeated `Move` calls (`Runs.Run`). The host stopping the timer on game over is not modelled.
- `java.util.Random`: each drawn cell is a parameter constrained to the grid. The draw's distribution is not modelled.
- Key event decoding, `keyTyped`, `keyReleased` and focus handling: keys are a four-valued type. Other keys cause no change in the source and are not represented.
- Java `int` overflow in `x * tileSize` and in the head advance: integers are unbounded. Coordinates stay small in play.
- SnakeGame.Move, SnakeGame.PlaceFood, SnakeGame.Init: require the drawn cell to be on the grid (for `Move`, only when the snake eats), which forces at least one column and one row. On a board narrower or shorter than one tile, the source's draw throws an exception; that case is not modelled.

## Findings

| source | as written | input that shows it | evidently intended | confidence | as-written member | corrected member |
|---|---|---|---|---|---|---|
| SnakeGame.java:149-150 | `snakeHead.x * tileSize > boardWidth` (same for y) | 600 x 600 board (24 columns), head (23,5) heading right: the head moves to (24,5), off the grid, and the game goes on | the head must stay in columns `0 .. boardWidth/tileSize - 1` and rows `0 .. boardHeight/tileSize - 1`; this equals using `>=` only when the sides are multiples of the tile size, as on the 600 x 600 board `App` opens | high; not executed | Scenarios.LiteralCheckMissesLastColumn | SnakeGame.MoveInGrid |

The rest of the model follows the code as written: `Move` keeps the pixel
test. `SnakeGame.MoveInGrid` is the corrected tick. `SnakeGame.MoveInGridIsStricter`
and `Board.AsWrittenMissesOneColumnAndRow` state exactly where the two ticks differ.
