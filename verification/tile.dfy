/**
 Grid cells, velocities and arrow keys of the Snake game.

 A `Tile` is a cell of the board in tile units (column, row); the snake's
 head, each body segment and the food are tiles. The snake moves by a
 velocity of one tile per tick along one axis, chosen with the arrow keys.
 */
module Tiles {

  /** A cell of the grid: column `x`, row `y` (tile units, not pixels). */
  datatype Tile = Tile(x: int, y: int)

  /** Tiles moved per tick along each axis (`velocityX`, `velocityY`). */
  datatype Velocity = Velocity(vx: int, vy: int)

  /** The four arrow keys the game reacts to. */
  datatype Key = Up | Down | Left | Right

  /** Two tiles collide when they occupy the same cell. */
  function Collision(a: Tile, b: Tile): (r: bool)
    ensures r <==> a == b
  {
    a.x == b.x && a.y == b.y
  }

  /** `Collision` is an equivalence: reflexive, symmetric and transitive. */
  lemma CollisionIsEquivalence()
    ensures forall a: Tile :: Collision(a, a)
    ensures forall a: Tile, b: Tile :: Collision(a, b) == Collision(b, a)
    ensures forall a: Tile, b: Tile, c: Tile ::
              Collision(a, b) && Collision(b, c) ==> Collision(a, c)
  {
  }

  /** The cell reached from `t` after one tick at velocity `v`. */
  function Translate(t: Tile, v: Velocity): Tile
  {
    Tile(t.x + v.vx, t.y + v.vy)
  }

  /** The opposite velocity. */
  function Reverse(v: Velocity): Velocity
  {
    Velocity(-v.vx, -v.vy)
  }

  /** One tile per tick along exactly one axis. */
  predicate IsUnit(v: Velocity)
  {
    v == Velocity(0, -1) || v == Velocity(0, 1) || v == Velocity(-1, 0) || v == Velocity(1, 0)
  }

  /** The velocity an arrow key asks for (rows grow downwards). */
  function Heading(k: Key): (v: Velocity)
    ensures IsUnit(v)
    ensures v.vx == 0 <==> (k == Up || k == Down)
    ensures v.vx + v.vy > 0 <==> (k == Down || k == Right)
  {
    match k
    case Up => Velocity(0, -1)
    case Down => Velocity(0, 1)
    case Left => Velocity(-1, 0)
    case Right => Velocity(1, 0)
  }

  /** Every unit velocity is the heading of exactly one key. */
  lemma UnitIsHeading(v: Velocity)
    requires IsUnit(v)
    ensures exists k :: Heading(k) == v
    ensures forall k, k' :: Heading(k) == v && Heading(k') == v ==> k == k'
  {
    if v == Velocity(0, -1) {
      assert Heading(Up) == v;
    } else if v == Velocity(0, 1) {
      assert Heading(Down) == v;
    } else if v == Velocity(-1, 0) {
      assert Heading(Left) == v;
    } else {
      assert Heading(Right) == v;
    }
  }
}
