/** The built-in 15 x 15 level layout and the facts the rest of the game
    relies on. */
module MazeLayout {
  import opened Tiles

  const W: TileType := Wall
  const F: TileType := Floor
  const E: TileType := Exit

  /** The default level, row by row. */
  const MAZE: seq<seq<TileType>> :=
    [
      [W, W, W, W, W, W, W, W, W, W, W, W, W, W, W], 
      [W, F, F, F, W, F, F, F, F, F, F, F, F, F, W], 
      [W, F, W, F, W, F, W, W, W, F, W, W, W, F, W], 
      [W, F, W, F, F, F, F, F, W, F, F, F, W, F, W], 
      [W, F, W, W, W, W, F, W, W, W, W, F, W, F, W], 
      [W, F, F, F, F, W, F, F, F, F, W, F, F, F, W], 
      [W, W, W, W, F, W, W, W, W, F, W, W, W, F, W], 
      [W, F, F, F, F, F, F, F, F, F, F, F, F, F, W], 
      [W, F, W, W, W, F, W, W, W, F, W, W, W, F, W], 
      [W, F, F, F, W, F, F, F, F, F, W, F, F, F, W], 
      [W, W, W, F, W, W, W, F, W, W, W, F, W, W, W], 
      [W, F, W, F, F, F, F, F, F, F, F, F, F, F, W], 
      [W, F, W, W, W, F, W, W, W, F, W, W, W, F, W], 
      [W, F, F, F, F, F, F, F, F, F, F, F, F, E, W], 
      [W, W, W, W, W, W, W, W, W, W, W, W, W, W, W]
    ]

  /** 15 rows of 15 columns each, so the layout meets the maze
      constructor's shape requirement. */
  lemma Shape()
    ensures |MAZE| == 15
    ensures forall r :: 0 <= r < 15 ==> |MAZE[r]| == 15
    ensures forall r :: 0 <= r < |MAZE| ==> |MAZE[r]| >= |MAZE[0]|
  {
  }

  /** The outer ring is wall: rows 0 and 14, and the first and last cell
      of every row. */
  lemma BorderIsWall()
    ensures forall c :: 0 <= c < 15 ==> MAZE[0][c] == Wall && MAZE[14][c] == Wall
    ensures forall r :: 0 <= r < 15 ==> MAZE[r][0] == Wall && MAZE[r][14] == Wall
  {
  }

  /** There is exactly one exit, at row 13, column 13. */
  lemma SingleExit()
    ensures forall r, c :: 0 <= r < 15 && 0 <= c < 15 ==> (MAZE[r][c] == Exit <==> r == 13 && c == 13)
  {
  }

  /** The spawner's fallback player tile (1, 1) is floor. */
  lemma FallbackTileIsFloor()
    ensures MAZE[1][1] == Floor
  {
  }
}
