/**
 A game as a sequence of events: timer ticks, each carrying the cell the
 random draw would return should food be placed, and arrow key presses.
 Facts about one tick or one key press are lifted here to whole games.
 */
module Runs {
  import opened Tiles
  import opened Board
  import opened SnakeGame

  /** What the host delivers: a tick (with the cell the food would move to)
      or a key press. */
  datatype Event = TimerTick(draw: Tile) | KeyPress(key: Key)

  /** Every tick of `events` draws its food cell from the grid. */
  predicate DrawsInGrid(width: int, height: int, events: seq<Event>)
  {
    forall i :: 0 <= i < |events| && events[i].TimerTick? ==> InGrid(width, height, events[i].draw)
  }

  /** One event: a tick runs `Move`, a key press runs `Press`. */
  function Step(s: State, e: Event): (r: State)
    requires e.TimerTick? ==> InGrid(s.width, s.height, e.draw)
    ensures r.width == s.width && r.height == s.height
    ensures s.gameOver ==> r.gameOver
    ensures Inv(s) ==> Inv(r)
    ensures |s.body| <= |r.body| <= |s.body| + 1
  {
    match e
    case TimerTick(draw) => Move(s, draw)
    case KeyPress(k) => Press(s, k)
  }

  /** The state after the events, in order. Along the way the board stays
      fixed, game over is never undone, the invariant is kept, and the score
      never drops and rises by at most one per event. */
  function Run(s: State, events: seq<Event>): (r: State)
    requires DrawsInGrid(s.width, s.height, events)
    ensures r.width == s.width && r.height == s.height
    ensures s.gameOver ==> r.gameOver
    ensures Inv(s) ==> Inv(r)
    ensures |s.body| <= |r.body| <= |s.body| + |events|
    decreases |events|
  {
    if events == [] then s
    else
      var t := Step(s, events[0]);
      assert DrawsInGrid(t.width, t.height, events[1..]) by {
        forall i | 0 <= i < |events[1..]| && events[1..][i].TimerTick?
          ensures InGrid(t.width, t.height, events[1..][i].draw)
        {
          assert events[1..][i] == events[i + 1];
        }
      }
      Run(t, events[1..])
  }

  /** Running `a` then `b` is running `a + b`: ticking is repeated `Move`. */
  lemma {:induction false} RunAppend(s: State, a: seq<Event>, b: seq<Event>)
    requires DrawsInGrid(s.width, s.height, a + b)
    ensures DrawsInGrid(s.width, s.height, a)
    ensures DrawsInGrid(s.width, s.height, b)
    ensures Run(s, a + b) == Run(Run(s, a), b)
    decreases |a|
  {
    assert forall i :: 0 <= i < |a| ==> (a + b)[i] == a[i];
    assert forall i :: 0 <= i < |b| ==> (a + b)[|a| + i] == b[i];
    if a == [] {
      assert a + b == b;
    } else {
      var t := Step(s, a[0]);
      assert (a + b)[0] == a[0];
      assert (a + b)[1..] == a[1..] + b;
      RunAppend(t, a[1..], b);
    }
  }

  /** Every state a game reaches from the start has a unit velocity and its
      food on the grid. */
  lemma ReachableKeepsInvariant(width: int, height: int, first: Tile, events: seq<Event>)
    requires InGrid(width, height, first)
    requires DrawsInGrid(width, height, events)
    ensures Inv(Run(Init(width, height, first), events))
  {
  }

  /** Once the game is over, no sequence of ticks and key presses revives it. */
  lemma GameOverIsFinal(s: State, events: seq<Event>)
    requires s.gameOver
    requires DrawsInGrid(s.width, s.height, events)
    ensures Run(s, events).gameOver
  {
  }
}
