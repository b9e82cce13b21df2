/** The maze grid: an immutable matrix of tiles, built once from a layout
    of tile kinds and then only queried. */
module MazeGrid {
  import opened Tiles

  class Maze {
    /** The grid and its dimensions are final and no method writes them,
        so they are constants: every query answer is fixed once the maze
        is built. */
    const grid: seq<seq<Tile>>
    const rows: int
    const cols: int

    /** The constructor's guarantee: `rows` rows of `cols` tiles each, and at
        least one row (the constructor reads `layout[0]`). */
    ghost predicate Valid()
    {
      && rows == |grid| > 0
      && cols >= 0
      && forall r :: 0 <= r < rows ==> |grid[r]| == cols
    }

    /** Builds the grid from `layout`. `rows` is the layout's length and
        `cols` the length of its first row, so the layout must have a row
        and no row may be shorter than the first (Java would raise an
        index exception); cells past `cols` in a longer row are ignored. */
    constructor (layout: seq<seq<TileType>>)
      requires |layout| > 0
      requires forall r :: 0 <= r < |layout| ==> |layout[r]| >= |layout[0]|
      ensures Valid()
      ensures rows == |layout| && cols == |layout[0]|
      ensures forall r, c :: 0 <= r < rows && 0 <= c < cols ==> grid[r][c] == Tile(layout[r][c])
    {
      var n := |layout|;
      var m := |layout[0]|;
      var g: seq<seq<Tile>> := [];
      for r := 0 to n
        invariant |g| == r
        invariant forall i :: 0 <= i < r ==> |g[i]| == m
        invariant forall i, c :: 0 <= i < r && 0 <= c < m ==> g[i][c] == Tile(layout[i][c])
      {
        var line: seq<Tile> := [];
        for c := 0 to m
          invariant |line| == c
          invariant forall j :: 0 <= j < c ==> line[j] == Tile(layout[r][j])
        {
          line := line + [Tile(layout[r][c])];
        }
        g := g + [line];
      }
      grid := g;
      rows := n;
      cols := m;
    }

    predicate InBounds(row: int, col: int)
    {
      row >= 0 && row < rows && col >= 0 && col < cols
    }

    predicate IsWalkable(row: int, col: int)
      requires Valid()
    {
      InBounds(row, col) && grid[row][col].IsWalkable()
    }

    predicate IsExit(row: int, col: int)
      requires Valid()
    {
      InBounds(row, col) && grid[row][col].GetType() == Exit
    }

    /** No bounds check in the source: an out-of-range index would throw,
        so callers must stay in bounds. */
    function GetTile(row: int, col: int): (t: Tile)
      requires Valid() && InBounds(row, col)
      ensures t == grid[row][col] && t.GetType() == grid[row][col].kind
    {
      grid[row][col]
    }

    function GetRows(): int { rows }

    function GetCols(): int { cols }
  }

  /** `InBounds` holds exactly inside the rectangle; out of it, negative
      indices included, no cell is walkable or an exit; in it, the answers
      are the tile's. */
  lemma QueriesMeaning(m: Maze, row: int, col: int)
    requires m.Valid()
    ensures m.InBounds(row, col) <==> 0 <= row < m.GetRows() && 0 <= col < m.GetCols()
    ensures !m.InBounds(row, col) ==> !m.IsWalkable(row, col) && !m.IsExit(row, col)
    ensures m.InBounds(row, col) ==>
              (m.IsWalkable(row, col) <==> m.GetTile(row, col).GetType() != Wall)
              && (m.IsExit(row, col) <==> m.GetTile(row, col).IsExit())
    ensures m.IsExit(row, col) ==> m.IsWalkable(row, col)
  {
  }
}
