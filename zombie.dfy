/** A zombie: walks straight along its heading until a wall blocks it,
    then picks a new heading, preferring the perpendicular axis. Its
    `Random` is an oracle stream of naturals; `drawn` counts the values
    taken from it so far. */
module Zombies {
  import opened JavaNum
  import opened MazeGrid
  import opened WallCollision
  import opened Timers

  /** Side of the zombie's box. */
  const ZOMBIE_SIZE: int := 24
  /** Half-pixels per update along the heading (2.5 pixels). */
  const ZOMBIE_SPEED: int := 5
  /** Frames a zombie ignores the player after touching it. */
  const COOLDOWN_FRAMES: int := 20
  /** The wander timer's period: the bias fires once the timer passes it. */
  const WANDER_PERIOD: int := 180
  /** Percent chance of the upward bias when it fires in the lower half. */
  const BIAS_PERCENT: int := 35
  /** Attempts made by one direction choice before standing still. */
  const DIRECTION_ATTEMPTS: nat := 10

  /** A velocity (dx, dy) in half-pixels per update. */
  datatype Dir = Dir(dx: int, dy: int)

  const STILL: Dir := Dir(0, 0)

  /** The headings a zombie can have: standing still or one axis at full
      speed. */
  predicate IsHeading(d: Dir)
  {
    || d == STILL
    || d == Dir(ZOMBIE_SPEED, 0) || d == Dir(-ZOMBIE_SPEED, 0)
    || d == Dir(0, ZOMBIE_SPEED) || d == Dir(0, -ZOMBIE_SPEED)
  }

  /** The direction tested by one attempt of `chooseNewDirection`, drawn
      from `raw`: a vertical mover flips a coin for left or right, a
      horizontal mover for down or up, a standing zombie draws one of the
      four. */
  function Candidate(movingHoriz: bool, movingVert: bool, raw: nat): Dir
  {
    if movingVert then
      Dir(if NextBoolean(raw) then ZOMBIE_SPEED else -ZOMBIE_SPEED, 0)
    else if movingHoriz then
      Dir(0, if NextBoolean(raw) then ZOMBIE_SPEED else -ZOMBIE_SPEED)
    else
      match NextInt(raw, 4)
      case 0 => Dir(ZOMBIE_SPEED, 0)
      case 1 => Dir(-ZOMBIE_SPEED, 0)
      case 2 => Dir(0, ZOMBIE_SPEED)
      case _ => Dir(0, -ZOMBIE_SPEED)
  }

  /** Every candidate is a moving heading, perpendicular to the axis the
      zombie was moving on; a standing zombie can draw each of the four. */
  lemma CandidateIsPerpendicular(movingHoriz: bool, movingVert: bool, raw: nat)
    ensures var d := Candidate(movingHoriz, movingVert, raw);
            && IsHeading(d) && d != STILL
            && (movingVert ==> d.dy == 0)
            && (!movingVert && movingHoriz ==> d.dx == 0)
  {
  }

  /** The corner test of a zombie's 24-pixel box at (px, py). */
  predicate ZombieBlocked(maze: Maze, px: int, py: int)
    requires maze.Valid()
  {
    BoxCollides(maze, px, py, ZOMBIE_SIZE)
  }

  /** Where the constructor puts the top-left corner of a zombie for tile
      (row, col): 4 pixels in on each axis, centring the box. */
  function SpawnCorner(row: int, col: int): (int, int)
  {
    (HALF * (col * TILE_SIZE + (TILE_SIZE - ZOMBIE_SIZE) / 2), HALF * (row * TILE_SIZE + (TILE_SIZE - ZOMBIE_SIZE) / 2))
  }

  /** The constructor's wall check: the box at the spawn corner collides. */
  predicate SpawnBlocked(maze: Maze, row: int, col: int)
    requires maze.Valid()
  {
    var c := SpawnCorner(row, col);
    ZombieBlocked(maze, c.0, c.1)
  }

  /** The candidates of a direction choice whose first attempt takes
      `stream(base)`: attempt j tests the one drawn from `stream(base + j)`. */
  function Cands(movingHoriz: bool, movingVert: bool, stream: nat -> nat, base: nat): nat -> Dir
  {
    (j: nat) => Candidate(movingHoriz, movingVert, stream(base + j))
  }

  /** Attempt j of a direction choice made from (x, y) fails: its
      candidate collides one step ahead. */
  ghost predicate AttemptFails(walls: iset<(int, int)>, x: int, y: int, cand: nat -> Dir, j: nat)
  {
    (x + cand(j).dx, y + cand(j).dy) in walls
  }

  /** The positions at which a zombie's box collides. */
  ghost function ZombieWalls(maze: Maze): iset<(int, int)>
    requires maze.Valid()
  {
    iset p: (int, int) | ZombieBlocked(maze, p.0, p.1)
  }

  /** The outcome of attempts i, i+1, ..., 9 of a direction choice made
      from (x, y): the first candidate whose box one step ahead is
      wall-free, or STILL after the last attempt fails; paired with the
      number of attempts made in all (each attempt takes one draw). */
  ghost function Choose(walls: iset<(int, int)>, x: int, y: int, cand: nat -> Dir, i: nat): (Dir, nat)
    requires i <= DIRECTION_ATTEMPTS
    decreases DIRECTION_ATTEMPTS - i
  {
    if i == DIRECTION_ATTEMPTS then (STILL, DIRECTION_ATTEMPTS)
    else if !AttemptFails(walls, x, y, cand, i) then (cand(i), i + 1)
    else Choose(walls, x, y, cand, i + 1)
  }

  /** Failed attempts k, ..., i - 1 hand the choice over to attempt i. */
  lemma {:induction false} ChooseSkipsFailures(walls: iset<(int, int)>, x: int, y: int, cand: nat -> Dir, k: nat, i: nat)
    requires k <= i <= DIRECTION_ATTEMPTS
    requires forall j :: k <= j < i ==> AttemptFails(walls, x, y, cand, j)
    ensures Choose(walls, x, y, cand, k) == Choose(walls, x, y, cand, i)
    decreases i - k
  {
    if k < i {
      assert AttemptFails(walls, x, y, cand, k);
      ChooseSkipsFailures(walls, x, y, cand, k + 1, i);
    }
  }

  /** A successful attempt i ends the choice with its candidate. */
  lemma ChooseStopsAt(walls: iset<(int, int)>, x: int, y: int, cand: nat -> Dir, i: nat)
    requires i < DIRECTION_ATTEMPTS
    requires !AttemptFails(walls, x, y, cand, i)
    ensures Choose(walls, x, y, cand, i) == (cand(i), i + 1)
  {
  }

  /** A direction choice yields a heading on one axis only: for a
      vertical mover a horizontal heading or none, for a horizontal mover a
      vertical heading or none. */
  lemma {:induction false} ChooseAxes(walls: iset<(int, int)>, x: int, y: int, movingHoriz: bool, movingVert: bool,
                                      stream: nat -> nat, base: nat, i: nat)
    requires i <= DIRECTION_ATTEMPTS
    ensures var d := Choose(walls, x, y, Cands(movingHoriz, movingVert, stream, base), i).0;
            && IsHeading(d)
            && (movingVert ==> d.dy == 0)
            && (!movingVert && movingHoriz ==> d.dx == 0)
    decreases DIRECTION_ATTEMPTS - i
  {
    if i < DIRECTION_ATTEMPTS {
      CandidateIsPerpendicular(movingHoriz, movingVert, stream(base + i));
      ChooseAxes(walls, x, y, movingHoriz, movingVert, stream, base, i + 1);
    }
  }

  /** A non-zero chosen heading is wall-free one step ahead. */
  lemma {:induction false} ChooseIsFree(walls: iset<(int, int)>, x: int, y: int, cand: nat -> Dir, i: nat)
    requires i <= DIRECTION_ATTEMPTS
    ensures var d := Choose(walls, x, y, cand, i).0;
            d != STILL ==> (x + d.dx, y + d.dy) !in walls
    decreases DIRECTION_ATTEMPTS - i
  {
    if i < DIRECTION_ATTEMPTS && AttemptFails(walls, x, y, cand, i) {
      ChooseIsFree(walls, x, y, cand, i + 1);
    }
  }

  /** The choice stands still exactly when every remaining attempt fails,
      given that no candidate is STILL. */
  lemma {:induction false} ChooseStillIff(walls: iset<(int, int)>, x: int, y: int, cand: nat -> Dir, i: nat)
    requires i <= DIRECTION_ATTEMPTS
    requires forall j: nat :: i <= j < DIRECTION_ATTEMPTS ==> cand(j) != STILL
    ensures Choose(walls, x, y, cand, i).0 == STILL
            <==> forall j :: i <= j < DIRECTION_ATTEMPTS ==> AttemptFails(walls, x, y, cand, j)
    decreases DIRECTION_ATTEMPTS - i
  {
    if i < DIRECTION_ATTEMPTS {
      ChooseStillIff(walls, x, y, cand, i + 1);
      if AttemptFails(walls, x, y, cand, i) {
        assert Choose(walls, x, y, cand, i) == Choose(walls, x, y, cand, i + 1);
      } else {
        assert Choose(walls, x, y, cand, i).0 == cand(i) != STILL;
      }
    }
  }

  /** No candidate of a direction choice is STILL. */
  lemma CandsMove(movingHoriz: bool, movingVert: bool, stream: nat -> nat, base: nat)
    ensures forall j: nat :: Cands(movingHoriz, movingVert, stream, base)(j) != STILL
  {
    forall j: nat ensures Cands(movingHoriz, movingVert, stream, base)(j) != STILL {
      CandidateIsPerpendicular(movingHoriz, movingVert, stream(base + j));
    }
  }

  /** Attempts i to 9 make at least one draw and at most 10 - i. */
  lemma {:induction false} ChooseDraws(walls: iset<(int, int)>, x: int, y: int, cand: nat -> Dir, i: nat)
    requires i < DIRECTION_ATTEMPTS
    ensures i < Choose(walls, x, y, cand, i).1 <= DIRECTION_ATTEMPTS
    decreases DIRECTION_ATTEMPTS - i
  {
    if i + 1 < DIRECTION_ATTEMPTS {
      ChooseDraws(walls, x, y, cand, i + 1);
    }
  }

  /** The wander bias of one update: the timer is stepped, and when it
      passes the period the zombie's row (int)(y / 32) is compared with
      half the maze's row count; only below the middle is a value drawn,
      and a draw under 35 out of 100 turns the heading straight up. Gives
      the heading and the number of values drawn. */
  function Biased(maze: Maze, y: int, d: Dir, wanderTimer: int, stream: nat -> nat, base: nat): (Dir, nat)
    requires maze.Valid()
  {
    if wanderTimer + 1 > WANDER_PERIOD && TileIndex(y) > maze.GetRows() / 2 then
      (if NextInt(stream(base), 100) < BIAS_PERCENT then Dir(0, -ZOMBIE_SPEED) else d, 1)
    else (d, 0)
  }

  /** The bias keeps a heading a heading, draws at most one value, and
      changes the heading only to straight up, only when the timer passes
      the period in the lower half of the maze. */
  lemma BiasedMeaning(maze: Maze, y: int, d: Dir, wanderTimer: int, stream: nat -> nat, base: nat)
    requires maze.Valid()
    ensures var (h, n) := Biased(maze, y, d, wanderTimer, stream, base);
            && (IsHeading(d) ==> IsHeading(h))
            && n <= 1
            && (n == 1 <==> wanderTimer + 1 > WANDER_PERIOD && TileIndex(y) > maze.rows / 2)
            && (h != d ==> n == 1 && h == Dir(0, -ZOMBIE_SPEED))
  {
  }

  /** The wander timer's step: `wanderTimer++`, back to 0 once past the
      period. */
  function WanderStep(t: int): int
  {
    if t + 1 > WANDER_PERIOD then 0 else t + 1
  }

  function WanderAfter(t: int, n: nat): int
    decreases n
  {
    if n == 0 then t else WanderAfter(WanderStep(t), n - 1)
  }

  /** From a fresh zombie the timer after n updates is n mod 181, so it
      stays in [0, 180] and is reset to 0 on exactly every 181st update. */
  lemma WanderPeriodic(n: nat)
    ensures WanderAfter(0, n) == n % (WANDER_PERIOD + 1)
    ensures 0 <= WanderAfter(0, n) <= WANDER_PERIOD
    ensures n > 0 ==> (WanderAfter(0, n) == 0 <==> n % (WANDER_PERIOD + 1) == 0)
  {
    WanderAfterSplit(0, n);
  }

  /** From a timer value t in range, n updates give (t + n) mod 181. */
  lemma {:induction false} WanderAfterSplit(t: int, n: nat)
    requires 0 <= t <= WANDER_PERIOD
    ensures WanderAfter(t, n) == (t + n) % (WANDER_PERIOD + 1)
    decreases n
  {
    if n > 0 {
      WanderAfterSplit(WanderStep(t), n - 1);
      if t == WANDER_PERIOD {
        assert t + n == (n - 1) + (WANDER_PERIOD + 1);
      }
    }
  }

  /** Whether `walls` holds exactly the positions the corner test
      rejects. */
  ghost predicate WallsOf(maze: Maze, walls: iset<(int, int)>)
  {
    && maze.Valid()
    && forall a, b {:trigger ZombieBlocked(maze, a, b)} :: ZombieBlocked(maze, a, b) <==> (a, b) in walls
  }

  /** The collision set of a maze is what its corner test rejects. */
  lemma ZombieWallsOf(maze: Maze)
    requires maze.Valid()
    ensures WallsOf(maze, ZombieWalls(maze))
  {
  }

  class Zombie {
    /** Top-left corner of the box, in half-pixels. */
    var x: int
    var y: int
    /** The current heading. */
    var dx: int
    var dy: int
    const maze: Maze
    /** The zombie's own `Random`: the oracle values it returns in order. */
    const stream: nat -> nat
    /** The positions at which this zombie's box collides: the corner
        test as a set, named by the direction-choice specification. */
    ghost const walls: iset<(int, int)>
    var drawn: nat
    var collisionCooldown: int
    var wanderTimer: int

    function Heading(): Dir reads this { Dir(dx, dy) }

    ghost predicate WallsKnown()
    {
      WallsOf(maze, walls)
    }

    /** What every operation keeps: the box is wall-free, the heading is
        still or on one axis, and both timers are in range. */
    ghost predicate Valid()
      reads this
    {
      && WallsKnown()
      && (x, y) !in walls
      && IsHeading(Heading())
      && 0 <= collisionCooldown <= COOLDOWN_FRAMES
      && 0 <= wanderTimer <= WANDER_PERIOD
    }

    /** Centres the box in tile (startRow, startCol), at (col * 32 + 4,
        row * 32 + 4), and picks a first heading from a standstill. The
        source throws `IllegalArgumentException` when that box collides;
        here the caller must rule that out (the spawner checks first), and
        `SpawnOnWalkableTile` shows that a walkable tile always passes. */
    constructor (startRow: int, startCol: int, maze: Maze, stream: nat -> nat)
      requires maze.Valid()
      requires !SpawnBlocked(maze, startRow, startCol)
      ensures Valid()
      ensures this.maze == maze && this.stream == stream && walls == ZombieWalls(maze)
      ensures (x, y) == SpawnCorner(startRow, startCol)
      ensures collisionCooldown == 0 && wanderTimer == 0
      ensures var r := Choose(walls, x, y, Cands(false, false, stream, 0), 0);
              Heading() == r.0 && drawn == r.1
    {
      this.maze := maze;
      this.stream := stream;
      walls := ZombieWalls(maze);
      var corner := SpawnCorner(startRow, startCol);
      x, y := corner.0, corner.1;
      dx, dy := 0, 0;
      drawn := 0;
      collisionCooldown := 0;
      wanderTimer := 0;
      new;
      ZombieWallsOf(maze);
      ChooseNewDirection();
      ChooseAxes(walls, x, y, false, false, stream, 0, 0);
    }

    function GetX(): int reads this`x { x }

    function GetY(): int reads this`y { y }

    function GetSize(): int { ZOMBIE_SIZE }

    /** The corner test of this zombie's box at (px, py): it collides
        exactly at the positions in `walls`. */
    method CollidesWithWallInternal(px: int, py: int) returns (b: bool)
      requires WallsKnown()
      ensures b <==> (px, py) in walls
    {
      b := BoxCollides(maze, px, py, ZOMBIE_SIZE);
      assert b == ZombieBlocked(maze, px, py);
    }

    predicate IsInCollisionCooldown() reads this`collisionCooldown { collisionCooldown > 0 }

    method TriggerCollisionCooldown()
      modifies this`collisionCooldown
      ensures old(Valid()) ==> Valid()
      ensures collisionCooldown == COOLDOWN_FRAMES
      ensures IsInCollisionCooldown()
    {
      collisionCooldown := COOLDOWN_FRAMES;
    }

    method TickCooldown()
      modifies this`collisionCooldown
      ensures collisionCooldown == Countdown(old(collisionCooldown))
    {
      if collisionCooldown > 0 {
        collisionCooldown := collisionCooldown - 1;
      }
    }

    /** Up to ten attempts at a new heading from the current position,
        which does not change: the first attempt whose box one step ahead
        is wall-free gives the heading, and after ten failures the zombie
        stands still. Each attempt takes one value from the stream. */
    method ChooseNewDirection()
      requires WallsKnown()
      modifies this`dx, this`dy, this`drawn
      ensures var r := Choose(walls, x, y, Cands(old(dx) != 0, old(dy) != 0, stream, old(drawn)), 0);
              Heading() == r.0 && drawn == old(drawn) + r.1
    {
      var movingHoriz := Abs(dx) > 0;
      var movingVert := Abs(dy) > 0;
      ghost var base := drawn;
      ghost var cand := Cands(movingHoriz, movingVert, stream, base);

      for i := 0 to DIRECTION_ATTEMPTS
        invariant drawn == base + i
        invariant forall j :: 0 <= j < i ==> AttemptFails(walls, x, y, cand, j)
      {
        var test := Candidate(movingHoriz, movingVert, stream(drawn));
        assert test == cand(i);
        drawn := drawn + 1;

        var hit := CollidesWithWallInternal(x + test.dx, y + test.dy);
        if !hit {
          ChooseStopsAt(walls, x, y, cand, i);
          ChooseSkipsFailures(walls, x, y, cand, 0, i);
          dx, dy := test.dx, test.dy;
          return;
        }
      }

      ChooseSkipsFailures(walls, x, y, cand, 0, DIRECTION_ATTEMPTS);
      dx, dy := 0, 0;
    }

    /** The wander part of a frame: the timer steps, and once it passes
        the period a zombie in the lower half of the maze turns upward
        with probability 35/100 (the roll is drawn only there) and the
        timer restarts. */
    method Wander()
      requires Valid()
      modifies this`dx, this`dy, this`drawn, this`wanderTimer
      ensures Valid()
      ensures wanderTimer == WanderStep(old(wanderTimer))
      ensures var b := Biased(maze, y, old(Heading()), old(wanderTimer), stream, old(drawn));
              Heading() == b.0 && drawn == old(drawn) + b.1
    {
      BiasedMeaning(maze, y, Heading(), wanderTimer, stream, drawn);
      wanderTimer := wanderTimer + 1;
      if wanderTimer > WANDER_PERIOD {
        var row := TileIndex(y);
        var mid := maze.GetRows() / 2;

        if row > mid {
          var roll := NextInt(stream(drawn), 100);
          drawn := drawn + 1;
          if roll < BIAS_PERCENT {
            dy := -ZOMBIE_SPEED;
            dx := 0;
          }
        }

        wanderTimer := 0;
      }
    }

    /** The move part of a frame: the zombie moves by its heading when
        both single-axis boxes are wall-free, and otherwise stays put and
        chooses a new heading. */
    method Advance()
      requires Valid()
      modifies this`x, this`y, this`dx, this`dy, this`drawn
      ensures Valid()
      ensures var h := old(Heading());
              if (old(x) + h.dx, old(y)) in walls || (old(x), old(y) + h.dy) in walls then
                var r := Choose(walls, x, y, Cands(h.dx != 0, h.dy != 0, stream, old(drawn)), 0);
                x == old(x) && y == old(y) && Heading() == r.0 && drawn == old(drawn) + r.1
              else
                x == old(x) + h.dx && y == old(y) + h.dy && Heading() == h && drawn == old(drawn)
    {
      var newX := x + dx;
      var newY := y + dy;
      var hitX := CollidesWithWallInternal(newX, y);
      var hitY := CollidesWithWallInternal(x, newY);

      if hitX || hitY {
        ChooseAxes(walls, x, y, dx != 0, dy != 0, stream, drawn, 0);
        ChooseNewDirection();
        return;
      }

      x := newX;
      y := newY;
    }

    /** One frame: the cooldown ticks, the zombie wanders, then moves. */
    method Update()
      requires Valid()
      modifies this
      ensures Valid()
      ensures collisionCooldown == Countdown(old(collisionCooldown))
      ensures wanderTimer == WanderStep(old(wanderTimer))
      ensures var b := Biased(maze, old(y), old(Heading()), old(wanderTimer), stream, old(drawn));
              var h := b.0;
              if (old(x) + h.dx, old(y)) in walls || (old(x), old(y) + h.dy) in walls then
                var r := Choose(walls, x, y, Cands(h.dx != 0, h.dy != 0, stream, old(drawn) + b.1), 0);
                x == old(x) && y == old(y) && Heading() == r.0 && drawn == old(drawn) + b.1 + r.1
              else
                x == old(x) + h.dx && y == old(y) + h.dy && Heading() == h && drawn == old(drawn) + b.1
    {
      TickCooldown();
      ghost var b := Biased(maze, y, Heading(), wanderTimer, stream, drawn);
      Wander();
      assert Heading() == b.0 && drawn == old(drawn) + b.1;
      Advance();
    }
  }

  /** The zombies' top-left corners, in list order. */
  function Positions(zs: seq<Zombie>): (ps: seq<(int, int)>)
    reads zs`x, zs`y
    ensures |ps| == |zs|
    ensures forall k {:trigger ps[k]} :: 0 <= k < |zs| ==> ps[k] == (zs[k].x, zs[k].y)
  {
    if zs == [] then [] else [(zs[0].x, zs[0].y)] + Positions(zs[1..])
  }

  /** The tile (row, col) of a spawn in the grid is found again from the
      spawn corner as ((int) (y / 32), (int) (x / 32)). */
  lemma SpawnTileRecovered(row: int, col: int)
    requires row >= 0 && col >= 0
    ensures TileIndex(SpawnCorner(row, col).0) == col && TileIndex(SpawnCorner(row, col).1) == row
  {
    assert SpawnCorner(row, col).0 == HALF * col * TILE_SIZE + HALF * 4;
    assert SpawnCorner(row, col).1 == HALF * row * TILE_SIZE + HALF * 4;
    RecoveredTile(row, HALF * 4);
    RecoveredTile(col, HALF * 4);
  }

  /** A zombie asked to spawn on a walkable tile never hits the source's
      wall check: its 24-pixel box sits 4 pixels inside the tile. */
  lemma {:induction false} SpawnOnWalkableTile(maze: Maze, row: int, col: int)
    requires maze.Valid() && maze.IsWalkable(row, col)
    ensures !SpawnBlocked(maze, row, col)
  {
    InsetBoxIsFree(maze, row, col, HALF * 4, ZOMBIE_SIZE);
  }
}
