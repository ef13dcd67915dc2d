/**
 `move` as the game performs it, statement by statement: the body is
 shifted one segment at a time from the tail towards the head, and the
 head is compared with every segment in a loop. The method is proved to
 compute exactly the functional `Move`.
 */
module Tick {
  import opened Tiles
  import opened Board
  import opened SnakeGame

  /** The in-place shift: walking from the last segment to the first, each
      segment copies its predecessor (the first one copies the head). Since
      segment `i - 1` is overwritten only after segment `i` has read it,
      every segment ends on its predecessor's pre-tick cell. */
  method ShiftInPlace(head: Tile, body: seq<Tile>) returns (r: seq<Tile>)
    ensures |r| == |body|
    ensures |r| > 0 ==> r[0] == head
    ensures forall i :: 0 < i < |r| ==> r[i] == body[i - 1]
  {
    var a := body;
    var i := |a| - 1;
    while i >= 0
      invariant -1 <= i < |a| == |body|
      invariant forall j :: 0 <= j <= i ==> a[j] == body[j]
      invariant forall j :: i < j < |a| && 0 < j ==> a[j] == body[j - 1]
      invariant i < 0 < |a| ==> a[0] == head
    {
      if i == 0 {
        a := a[i := head];
      } else {
        a := a[i := a[i - 1]];
      }
      i := i - 1;
    }
    r := a;
  }

  /** The self-collision loop: `hit` is set when the head matches a segment. */
  method HitsAnySegment(head: Tile, body: seq<Tile>) returns (hit: bool)
    ensures hit <==> head in body
  {
    hit := false;
    var k := 0;
    while k < |body|
      invariant 0 <= k <= |body|
      invariant hit <==> head in body[..k]
    {
      assert body[..k + 1] == body[..k] + [body[k]];
      if Collision(head, body[k]) {
        hit := true;
      }
      k := k + 1;
    }
    assert body[..k] == body;
  }

  /** One tick, in the order the game performs it: eat, shift, advance,
      self-collision test, pixel bounds test. */
  method Tick(s: State, draw: Tile) returns (r: State)
    requires DrawFits(s, draw)
    ensures r == Move(s, draw)
  {
    var body := s.body;
    var food := s.food;
    if Collision(s.head, food) {
      body := body + [Tile(food.x, food.y)];
      food := draw;
    }
    var fed := body;
    body := ShiftInPlace(s.head, body);
    assert body == ShiftBody(s.head, fed);
    var head := Tile(s.head.x + s.velocity.vx, s.head.y + s.velocity.vy);
    var over := s.gameOver;
    var hit := HitsAnySegment(head, body);
    if hit {
      over := true;
    }
    if head.x * TileSize < 0 || head.x * TileSize > s.width
       || head.y * TileSize < 0 || head.y * TileSize > s.height {
      over := true;
    }
    r := s.(head := head, body := body, food := food, gameOver := over);
    ghost var m := Move(s, draw);
    assert m.head == head && m.body == body && m.food == food;
    assert m.gameOver == over;
  }
}
