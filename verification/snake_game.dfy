/**
 The game state of Snake and its transitions: the initial state, food
 placement, the per-tick `Move` and the arrow-key `Press`.

 The state is an immutable record; each operation returns the next state.
 The random cell that food placement draws is a parameter `draw`, which
 the caller must pick from the range of the random draw: the grid.
 */
module SnakeGame {
  import opened Tiles
  import opened Board

  /** One snapshot of the game. `body` lists the segments nearest-first; the
      score shown on screen is `|body|`. */
  datatype State = State(
    width: int,
    height: int,
    head: Tile,
    body: seq<Tile>,
    food: Tile,
    velocity: Velocity,
    gameOver: bool)

  /** The state every reachable state keeps: a unit velocity and food on
      the grid. */
  predicate Inv(s: State)
  {
    IsUnit(s.velocity) && InGrid(s.width, s.height, s.food)
  }

  /** Moves the food to the randomly drawn cell `draw`. */
  function PlaceFood(s: State, draw: Tile): (r: State)
    requires InGrid(s.width, s.height, draw)
    ensures InGrid(r.width, r.height, r.food)
    ensures r == s.(food := r.food)
    ensures IsUnit(s.velocity) ==> Inv(r)
  {
    s.(food := draw)
  }

  /** The state right after construction on a `width` x `height` pixel board,
      where `draw` is the first food cell drawn. */
  function Init(width: int, height: int, draw: Tile): (r: State)
    requires InGrid(width, height, draw)
    ensures Inv(r) && !r.gameOver
    ensures r.width == width && r.height == height
    ensures r.head == Tile(5, 5) && r.body == [] && r.velocity == Velocity(1, 0)
    ensures r.food == draw
  {
    var s := State(width, height, Tile(5, 5), [], Tile(10, 10), Velocity(0, 0), false);
    PlaceFood(s, draw).(velocity := Velocity(1, 0))
  }

  /** The body after the shift: each segment takes the position its
      predecessor had before the tick, the first one the head's. */
  function ShiftBody(head: Tile, body: seq<Tile>): (r: seq<Tile>)
    ensures |r| == |body|
    ensures forall i :: 0 <= i < |r| ==> r[i] == if i == 0 then head else body[i - 1]
  {
    if body == [] then [] else [head] + body[..|body| - 1]
  }

  /** The head occupies the cell of some body segment. */
  predicate HitsBody(head: Tile, body: seq<Tile>)
  {
    exists i :: 0 <= i < |body| && Collision(head, body[i])
  }

  /** The random cell is only drawn when the head is on the food. */
  predicate DrawFits(s: State, draw: Tile)
  {
    Collision(s.head, s.food) ==> InGrid(s.width, s.height, draw)
  }

  /** Everything one tick does before the bounds test: eat, shift the body,
      advance the head, test for self-collision. Its behaviour is stated by
      the contracts of `Move` and `MoveInGrid`, which differ only in the
      bounds test they add. */
  function Advance(s: State, draw: Tile): State
    requires DrawFits(s, draw)
  {
    var fed := if Collision(s.head, s.food) then PlaceFood(s.(body := s.body + [s.food]), draw) else s;
    var body := ShiftBody(s.head, fed.body);
    var head := Translate(s.head, s.velocity);
    fed.(head := head, body := body, gameOver := fed.gameOver || HitsBody(head, body))
  }

  /** One tick of the game, with the bounds test as the game performs it. */
  function Move(s: State, draw: Tile): (r: State)
    requires DrawFits(s, draw)
    // board and velocity are never touched
    ensures r.width == s.width && r.height == s.height && r.velocity == s.velocity
    // the head advances by exactly the velocity
    ensures r.head.x == s.head.x + s.velocity.vx && r.head.y == s.head.y + s.velocity.vy
    // eating: the snake grows by one, the old head leads the old body, new food on the grid
    ensures s.head == s.food ==>
              && |r.body| == |s.body| + 1
              && r.body == [s.head] + s.body
              && r.food == draw && InGrid(r.width, r.height, r.food)
    // not eating: same length, every segment moves to its predecessor's cell
    ensures s.head != s.food ==>
              && |r.body| == |s.body|
              && (forall i :: 0 < i < |r.body| ==> r.body[i] == s.body[i - 1])
              && (|r.body| > 0 ==> r.body[0] == s.head)
              && r.food == s.food
    // game over exactly when it already was, the head hit the body, or it left the board
    ensures r.gameOver <==>
              s.gameOver || r.head in r.body || OffBoardAsWritten(r.width, r.height, r.head)
    ensures Inv(s) ==> Inv(r)
  {
    var t := Advance(s, draw);
    assert s.head == s.food ==> t.body == [s.head] + s.body;
    t.(gameOver := t.gameOver || OffBoardAsWritten(t.width, t.height, t.head))
  }

  /** One tick with the bounds test the game evidently intends: the head
      must stay on the `Columns(width)` x `Rows(height)` grid. */
  function MoveInGrid(s: State, draw: Tile): (r: State)
    requires DrawFits(s, draw)
    ensures r.gameOver <==>
              s.gameOver || r.head in r.body || !InGrid(r.width, r.height, r.head)
    ensures !r.gameOver ==> InGrid(r.width, r.height, r.head)
  {
    var t := Advance(s, draw);
    t.(gameOver := t.gameOver || !InGrid(t.width, t.height, t.head))
  }

  /** The grid test differs from the pixel test only in flagging more:
      both moves agree on everything else, and the intended one ends the
      game whenever the one as written does. */
  lemma MoveInGridIsStricter(s: State, draw: Tile)
    requires DrawFits(s, draw)
    ensures MoveInGrid(s, draw) == Move(s, draw).(gameOver := MoveInGrid(s, draw).gameOver)
    ensures Move(s, draw).gameOver ==> MoveInGrid(s, draw).gameOver
  {
  }

  /** An arrow key press: turn to the key's heading unless that is the
      reverse of the velocity stored at the time of the press. The guard
      looks at one velocity component only, and nothing records the
      direction of the last tick, so two presses between ticks can reverse
      the snake. */
  function Press(s: State, k: Key): (r: State)
    ensures r == s.(velocity := r.velocity)
    ensures r.velocity == s.velocity || r.velocity == Heading(k)
    ensures IsUnit(s.velocity) ==>
              && IsUnit(r.velocity)
              && r.velocity != Reverse(s.velocity)
              && (r.velocity == Heading(k) <==> Heading(k) != Reverse(s.velocity))
  {
    match k
    case Up => if s.velocity.vy != 1 then s.(velocity := Velocity(0, -1)) else s
    case Down => if s.velocity.vy != -1 then s.(velocity := Velocity(0, 1)) else s
    case Left => if s.velocity.vx != 1 then s.(velocity := Velocity(-1, 0)) else s
    case Right => if s.velocity.vx != -1 then s.(velocity := Velocity(1, 0)) else s
  }
}
