/** The four-corner wall test shared by the player and the zombies: each
    corner of a square box is reduced to a tile index with Java's `(int)`
    cast and `int` division, and the box collides when any corner's tile
    is not walkable. Coordinates are in half-pixels (see
    `JavaNum.HalfToInt`); sizes are in pixels. */
module WallCollision {
  import opened JavaNum
  import opened Tiles
  import opened MazeGrid

  const TILE_SIZE: int := 32
  /** Half-pixels per pixel. */
  const HALF: int := 2

  /** The tile of a coordinate: the quotient h / 64 truncated toward zero.
      Both ways the source turns a double coordinate p = h / 2 into a tile
      give this (see `TileIndexMatchesSource`): the corner test's
      `((int) p) / 32` and the spawner's and exit check's `(int) (p / 32)`. */
  function TileIndex(h: int): int
  {
    IntDiv(h, HALF * TILE_SIZE)
  }

  /** `((int) p) / TILE_SIZE` and `(int) (p / TILE_SIZE)` for the double
      p = h / 2 both equal `TileIndex(h)`: truncating in two steps or in
      one gives the same tile. */
  lemma TileIndexMatchesSource(h: int)
    ensures TileIndex(h) == IntDiv(HalfToInt(h), TILE_SIZE)
  {
    var n := if h >= 0 then h else -h;
    var q := n / (HALF * TILE_SIZE);
    assert n / HALF / TILE_SIZE == q by {
      assert HALF * TILE_SIZE * q <= n < HALF * TILE_SIZE * q + HALF * TILE_SIZE;
      assert TILE_SIZE * q <= n / HALF < TILE_SIZE * q + TILE_SIZE;
    }
  }

  /** The corner test of a box of side `size` pixels whose top-left corner
      is at (x, y): the samples are at x and x + size (inclusive) on each
      axis. */
  predicate BoxCollides(maze: Maze, x: int, y: int, size: int)
    requires maze.Valid()
  {
    var leftCol := TileIndex(x);
    var rightCol := TileIndex(x + HALF * size);
    var topRow := TileIndex(y);
    var bottomRow := TileIndex(y + HALF * size);
    !maze.IsWalkable(topRow, leftCol) ||
    !maze.IsWalkable(topRow, rightCol) ||
    !maze.IsWalkable(bottomRow, leftCol) ||
    !maze.IsWalkable(bottomRow, rightCol)
  }

  /** For a non-negative coordinate the tile index is the tile that
      contains it; pixel 32k, the boundary, belongs to tile k. */
  lemma TileIndexOfNonNegative(h: int, k: int)
    requires h >= 0
    ensures TileIndex(h) == k <==> HALF * TILE_SIZE * k <= h < HALF * TILE_SIZE * (k + 1)
  {
  }

  /** Truncation toward zero sends every coordinate strictly between -32
      and 32 pixels to tile 0: a box may overhang the top or left edge of
      the grid by up to 31.5 pixels while still being tested against row
      or column 0. */
  lemma TileIndexNearOrigin(h: int)
    requires -HALF * TILE_SIZE < h < HALF * TILE_SIZE
    ensures TileIndex(h) == 0
  {
  }

  /** Every corner that is off the grid counts as a collision, whatever
      the tiles are. */
  lemma OffGridCollides(maze: Maze, x: int, y: int, size: int)
    requires maze.Valid()
    requires !maze.InBounds(TileIndex(y), TileIndex(x))
             || !maze.InBounds(TileIndex(y + HALF * size), TileIndex(x + HALF * size))
    ensures BoxCollides(maze, x, y, size)
  {
  }

  /** The far edge is sampled inclusively: a box whose right edge lies
      exactly on the left edge of a wall tile k collides with it, though
      the two only touch. */
  lemma FlushAgainstWallCollides(maze: Maze, x: int, y: int, size: int, k: int)
    requires maze.Valid() && x >= 0 && size >= 0
    requires x + HALF * size == HALF * TILE_SIZE * k
    requires !maze.IsWalkable(TileIndex(y), k)
    ensures BoxCollides(maze, x, y, size)
  {
    TileIndexOfNonNegative(x + HALF * size, k);
  }

  /** A box placed `offset` half-pixels inside a walkable tile, ending
      before the tile's far edge, has all four corners in that tile and so
      does not collide. */
  lemma InsetBoxIsFree(maze: Maze, row: int, col: int, offset: int, size: int)
    requires maze.Valid() && maze.IsWalkable(row, col)
    requires 0 <= offset && 0 <= size && offset + HALF * size < HALF * TILE_SIZE
    ensures !BoxCollides(maze, HALF * col * TILE_SIZE + offset, HALF * row * TILE_SIZE + offset, size)
  {
    var x := HALF * col * TILE_SIZE + offset;
    var y := HALF * row * TILE_SIZE + offset;
    TileIndexOfNonNegative(x, col);
    TileIndexOfNonNegative(x + HALF * size, col);
    TileIndexOfNonNegative(y, row);
    TileIndexOfNonNegative(y + HALF * size, row);
  }

  /** An entity placed `offset` half-pixels into tile k (k >= 0) is found
      on tile k again. */
  lemma RecoveredTile(k: int, offset: int)
    requires k >= 0 && 0 <= offset < HALF * TILE_SIZE
    ensures TileIndex(HALF * k * TILE_SIZE + offset) == k
  {
  }
}
