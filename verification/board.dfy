/**
 The board: a `width` x `height` pixel panel cut into square tiles of
 `TileSize` pixels, giving `Columns(width)` x `Rows(height)` cells.

 Two out-of-board tests live here: the one the game performs, which
 compares pixel-scaled tile coordinates against the pixel dimensions with
 `<` and `>`, and the grid test that the game evidently intends.
 */
module Board {
  import opened Tiles

  /** Edge length of a tile in pixels; the game never changes it. */
  const TileSize: int := 25

  /** Java `int` division, which truncates toward zero. */
  function JavaDiv(a: int, b: int): (q: int)
    requires b > 0
    ensures a >= 0 ==> q * b <= a < q * b + b
    ensures a < 0 ==> q * b - b < a <= q * b
  {
    if a >= 0 then a / b else -((-a) / b)
  }

  /** Number of tile columns: the bound passed to the random column draw. */
  function Columns(width: int): int
  {
    JavaDiv(width, TileSize)
  }

  /** Number of tile rows: the bound passed to the random row draw. */
  function Rows(height: int): int
  {
    JavaDiv(height, TileSize)
  }

  /** `t` is a cell of the grid. */
  predicate InGrid(width: int, height: int, t: Tile)
  {
    0 <= t.x < Columns(width) && 0 <= t.y < Rows(height)
  }

  /** The out-of-bounds test as the game performs it, in pixels. What it
      flags is stated in tile units by `OffBoardAsWrittenInTiles`, and
      `Move`'s contract says when it ends the game. */
  predicate OffBoardAsWritten(width: int, height: int, t: Tile)
  {
    t.x * TileSize < 0 || t.x * TileSize > width || t.y * TileSize < 0 || t.y * TileSize > height
  }

  /** In tile units, the pixel test flags a negative coordinate or one
      strictly beyond `width / TileSize` (resp. `height / TileSize`). */
  lemma OffBoardAsWrittenInTiles(width: int, height: int, t: Tile)
    requires width >= 0 && height >= 0
    ensures OffBoardAsWritten(width, height, t) <==>
              t.x < 0 || t.x > Columns(width) || t.y < 0 || t.y > Rows(height)
  {
  }

  /** Every tile the pixel test flags is off the grid. */
  lemma AsWrittenFlagsOnlyOffGrid(width: int, height: int, t: Tile)
    ensures OffBoardAsWritten(width, height, t) ==> !InGrid(width, height, t)
  {
  }

  /** The cells off the grid that the pixel test lets through are exactly
      those on the column `Columns(width)` or the row `Rows(height)` just
      past the last one (and not beyond it). */
  lemma AsWrittenMissesOneColumnAndRow(width: int, height: int, t: Tile)
    requires width >= 0 && height >= 0
    ensures !InGrid(width, height, t) && !OffBoardAsWritten(width, height, t) <==>
              && 0 <= t.x <= Columns(width) && 0 <= t.y <= Rows(height)
              && (t.x == Columns(width) || t.y == Rows(height))
  {
  }
}
