/** The player: a box moved in pixel space, one axis at a time, so that a
    blocked axis does not stop the other (sliding along walls). */
module Players {
  import opened MazeGrid
  import opened WallCollision

  /** Side of the player's box, smaller than a tile. */
  const PLAYER_SIZE: int := 18

  /** Where `move` puts a box of side `size` at (x, y) asked to move by
      (dx, dy): first x is moved if the box at (x + dx, y) is wall-free,
      then y is moved if the box at the new x and y + dy is wall-free. */
  function ResolveMove(maze: Maze, size: int, x: int, y: int, dx: int, dy: int): (p: (int, int))
    requires maze.Valid()
  {
    var x' := if !BoxCollides(maze, x + dx, y, size) then x + dx else x;
    var y' := if !BoxCollides(maze, x', y + dy, size) then y + dy else y;
    (x', y')
  }

  /** Each axis either keeps its coordinate or moves by exactly its delta;
      x moves exactly when the box shifted along x alone is free, y exactly
      when the box shifted along y from the new x is free. In particular a
      diagonal move into a wall still moves along the free axis. */
  lemma {:induction false} ResolveMoveAxes(maze: Maze, size: int, x: int, y: int, dx: int, dy: int)
    requires maze.Valid()
    ensures var p := ResolveMove(maze, size, x, y, dx, dy);
            && (p.0 == x + dx || p.0 == x)
            && (p.1 == y + dy || p.1 == y)
            && (!BoxCollides(maze, x + dx, y, size) ==> p.0 == x + dx)
            && (BoxCollides(maze, x + dx, y, size) ==> p.0 == x)
            && (!BoxCollides(maze, p.0, y + dy, size) ==> p.1 == y + dy)
            && (BoxCollides(maze, p.0, y + dy, size) ==> p.1 == y)
  {
  }

  /** A box that starts wall-free is wall-free after the move. */
  lemma {:induction false} ResolveMoveStaysFree(maze: Maze, size: int, x: int, y: int, dx: int, dy: int)
    requires maze.Valid() && !BoxCollides(maze, x, y, size)
    ensures var p := ResolveMove(maze, size, x, y, dx, dy);
            !BoxCollides(maze, p.0, p.1, size)
  {
  }

  class Player {
    /** Position of the box's top-left corner, in half-pixels. */
    var x: int
    var y: int
    /** Half-pixels per update (3 pixels). The field is never written,
        and `move` takes its step from the caller. */
    const speed: int
    const maze: Maze

    /** Places the top-left corner so that the box is centred in tile
        (startRow, startCol): (col * 32 + 7, row * 32 + 7). No wall check. */
    constructor (startRow: int, startCol: int, maze: Maze)
      ensures this.maze == maze && speed == HALF * 3
      ensures x == HALF * (startCol * TILE_SIZE + 7)
      ensures y == HALF * (startRow * TILE_SIZE + 7)
    {
      this.maze := maze;
      speed := HALF * 3;
      // (TILE_SIZE - SIZE) / 2.0 pixels is TILE_SIZE - SIZE half-pixels
      x := HALF * startCol * TILE_SIZE + (TILE_SIZE - PLAYER_SIZE);
      y := HALF * startRow * TILE_SIZE + (TILE_SIZE - PLAYER_SIZE);
    }

    function GetX(): int reads this { x }

    function GetY(): int reads this { y }

    function GetSize(): int { PLAYER_SIZE }

    function GetSpeed(): int { speed }

    predicate CollidesWithWall(px: int, py: int)
      requires maze.Valid()
    {
      BoxCollides(maze, px, py, PLAYER_SIZE)
    }

    /** Moves x, then y, each only if the box there is wall-free. The
        deltas are in half-pixels. */
    method Move(dx: int, dy: int)
      requires maze.Valid()
      modifies this
      ensures (x, y) == ResolveMove(maze, PLAYER_SIZE, old(x), old(y), dx, dy)
      ensures !CollidesWithWall(old(x), old(y)) ==> !CollidesWithWall(x, y)
    {
      var newX := x + dx;
      var newY := y + dy;
      if !CollidesWithWall(x, y) {
        ResolveMoveStaysFree(maze, PLAYER_SIZE, x, y, dx, dy);
      }

      if !CollidesWithWall(newX, y) {
        x := newX;
      }

      if !CollidesWithWall(x, newY) {
        y := newY;
      }
    }
  }

  /** The tile under the centre of the player's box, as the spawner and
      the exit check compute it: ((int) ((y + 9) / 32), (int) ((x + 9) / 32)),
      with `SIZE / 2` an int division. */
  function CentreTile(p: Player): (int, int)
    reads p
  {
    (TileIndex(p.y + HALF * (PLAYER_SIZE / 2)), TileIndex(p.x + HALF * (PLAYER_SIZE / 2)))
  }

  /** The spawner's fallback: a player built on a walkable tile starts
      wall-free, since its 18-pixel box sits 7 pixels inside the tile. */
  lemma {:induction false} PlayerOnWalkableTileIsFree(maze: Maze, row: int, col: int)
    requires maze.Valid() && maze.IsWalkable(row, col)
    ensures !BoxCollides(maze, HALF * (col * TILE_SIZE + 7), HALF * (row * TILE_SIZE + 7), PLAYER_SIZE)
  {
    InsetBoxIsFree(maze, row, col, HALF * 7, PLAYER_SIZE);
  }
}
