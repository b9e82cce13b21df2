/** The spawner: places the player on the maze's player marker (or tile
    (1, 1)), the zombies on the zombie markers or else by rejection
    sampling with spacing rules, and the collectibles by rejection
    sampling on walkable tiles. The sampling loops have no bound in the
    source; here each draw of a (row, col) pair spends one unit of `fuel`,
    and running out is reported as `Exhausted`. The marker queries and the
    zombie and collectible counts are not part of the maze or constant
    classes shown, so they are given to the spawner when it is built. */
module Spawning {
  import opened Wrappers
  import opened JavaNum
  import opened MazeGrid
  import opened WallCollision
  import opened Players
  import opened Zombies
  import opened Collectibles

  /** Least Manhattan distance from the player's tile to a random zombie. */
  const PLAYER_CLEARANCE: int := 4
  /** Least Manhattan distance between two random zombies' tiles. */
  const ZOMBIE_SPACING: int := 2

  datatype SpawnError =
    | InsideWall(row: int, col: int)  // a zombie marker whose box collides: the constructor throws
    | BadBound                        // `nextInt(0)` on a maze with no columns; the source
                                      // draws the row first, a draw the model does not count
                                      // since the exception ends the spawn
    | Exhausted                       // the fuel ran out before the count was reached

  /** A tile as (row, col). */
  type Spot = (int, int)

  /** Manhattan distance between tiles (r1, c1) and (r2, c2). */
  function Dist(r1: int, c1: int, r2: int, c2: int): int
  {
    Abs(r1 - r2) + Abs(c1 - c2)
  }

  /** `Dist` is a metric on tiles: non-negative, zero exactly on the same
      tile, symmetric, and obeying the triangle inequality. */
  lemma DistIsMetric(r1: int, c1: int, r2: int, c2: int, r3: int, c3: int)
    ensures Dist(r1, c1, r2, c2) >= 0
    ensures Dist(r1, c1, r2, c2) == 0 <==> r1 == r2 && c1 == c2
    ensures Dist(r1, c1, r2, c2) == Dist(r2, c2, r1, c1)
    ensures Dist(r1, c1, r3, c3) <= Dist(r1, c1, r2, c2) + Dist(r2, c2, r3, c3)
  {
  }

  /** The spacing check against the zombies placed so far. */
  predicate FarFromAll(spots: seq<Spot>, row: int, col: int)
  {
    forall k :: 0 <= k < |spots| ==> Dist(row, col, spots[k].0, spots[k].1) >= ZOMBIE_SPACING
  }

  /** Whether a random draw (row, col) is kept as a zombie tile, given the
      player's tile (pr, pc) and the tiles already kept. */
  predicate ZombieAccepts(maze: Maze, pr: int, pc: int, spots: seq<Spot>, row: int, col: int)
    requires maze.Valid()
  {
    && maze.IsWalkable(row, col)
    && Dist(row, col, pr, pc) >= PLAYER_CLEARANCE
    && FarFromAll(spots, row, col)
  }

  /** The spacing rules hold of a list of zombie tiles. */
  predicate WellSpaced(maze: Maze, pr: int, pc: int, spots: seq<Spot>)
    requires maze.Valid()
  {
    && (forall k :: 0 <= k < |spots| ==> maze.IsWalkable(spots[k].0, spots[k].1))
    && (forall k :: 0 <= k < |spots| ==> Dist(spots[k].0, spots[k].1, pr, pc) >= PLAYER_CLEARANCE)
    && (forall i, j :: 0 <= i < j < |spots| ==>
          Dist(spots[i].0, spots[i].1, spots[j].0, spots[j].1) >= ZOMBIE_SPACING)
  }

  /** The rejection sampling of zombie tiles, continued from the kept
      tiles `spots` with the stream read from `base` on: each round draws a
      row then a column and keeps the tile if `ZombieAccepts`, until
      `count` tiles are kept. Gives the tiles and the next unread stream
      index. */
  function SampleZombieSpots(maze: Maze, count: int, pr: int, pc: int, stream: nat -> nat, base: nat,
                             fuel: nat, spots: seq<Spot>): Result<(seq<Spot>, nat), SpawnError>
    requires maze.Valid()
    decreases fuel
  {
    if |spots| >= count then Ok((spots, base))
    else if fuel == 0 then Failure(Exhausted)
    else if maze.cols <= 0 then Failure(BadBound)
    else
      var row := NextInt(stream(base), maze.rows);
      var col := NextInt(stream(base + 1), maze.cols);
      if ZombieAccepts(maze, pr, pc, spots, row, col) then
        SampleZombieSpots(maze, count, pr, pc, stream, base + 2, fuel - 1, spots + [(row, col)])
      else
        SampleZombieSpots(maze, count, pr, pc, stream, base + 2, fuel - 1, spots)
  }

  /** Keeping an accepted tile keeps the list well spaced. */
  lemma WellSpacedExtend(maze: Maze, pr: int, pc: int, spots: seq<Spot>, row: int, col: int)
    requires maze.Valid() && WellSpaced(maze, pr, pc, spots) && ZombieAccepts(maze, pr, pc, spots, row, col)
    ensures WellSpaced(maze, pr, pc, spots + [(row, col)])
  {
    var s := spots + [(row, col)];
    forall i, j | 0 <= i < j < |s|
      ensures Dist(s[i].0, s[i].1, s[j].0, s[j].1) >= ZOMBIE_SPACING
    {
      if j == |spots| {
        assert Dist(row, col, spots[i].0, spots[i].1) >= ZOMBIE_SPACING;
        DistIsMetric(row, col, spots[i].0, spots[i].1, row, col);
      }
    }
  }

  /** A successful sampling extends the kept tiles to exactly `count`
      (from a shorter list) and keeps the spacing rules. */
  lemma {:induction false} SampleZombieSpotsSound(maze: Maze, count: int, pr: int, pc: int, stream: nat -> nat,
                                                  base: nat, fuel: nat, spots: seq<Spot>)
    requires maze.Valid() && WellSpaced(maze, pr, pc, spots)
    ensures var r := SampleZombieSpots(maze, count, pr, pc, stream, base, fuel, spots);
            r.Ok? ==>
              && WellSpaced(maze, pr, pc, r.value.0)
              && spots <= r.value.0
              && |r.value.0| == Max(count, |spots|)
    decreases fuel
  {
    if |spots| < count && fuel > 0 && maze.cols > 0 {
      var row := NextInt(stream(base), maze.rows);
      var col := NextInt(stream(base + 1), maze.cols);
      if ZombieAccepts(maze, pr, pc, spots, row, col) {
        WellSpacedExtend(maze, pr, pc, spots, row, col);
        SampleZombieSpotsSound(maze, count, pr, pc, stream, base + 2, fuel - 1, spots + [(row, col)]);
      } else {
        SampleZombieSpotsSound(maze, count, pr, pc, stream, base + 2, fuel - 1, spots);
      }
    }
  }

  /** The rejection sampling of collectible tiles: any walkable draw is
      kept, with no spacing rule, so two collectibles may share a tile. */
  function SampleCollectibleSpots(maze: Maze, count: int, stream: nat -> nat, base: nat,
                                  fuel: nat, spots: seq<Spot>): Result<(seq<Spot>, nat), SpawnError>
    requires maze.Valid()
    decreases fuel
  {
    if |spots| >= count then Ok((spots, base))
    else if fuel == 0 then Failure(Exhausted)
    else if maze.cols <= 0 then Failure(BadBound)
    else
      var row := NextInt(stream(base), maze.rows);
      var col := NextInt(stream(base + 1), maze.cols);
      if maze.IsWalkable(row, col) then
        SampleCollectibleSpots(maze, count, stream, base + 2, fuel - 1, spots + [(row, col)])
      else
        SampleCollectibleSpots(maze, count, stream, base + 2, fuel - 1, spots)
  }

  /** A successful sampling extends the kept tiles to exactly `count`,
      every one walkable. */
  lemma {:induction false} SampleCollectibleSpotsSound(maze: Maze, count: int, stream: nat -> nat, base: nat,
                                                       fuel: nat, spots: seq<Spot>)
    requires maze.Valid()
    requires forall k :: 0 <= k < |spots| ==> maze.IsWalkable(spots[k].0, spots[k].1)
    ensures var r := SampleCollectibleSpots(maze, count, stream, base, fuel, spots);
            r.Ok? ==>
              && (forall k :: 0 <= k < |r.value.0| ==> maze.IsWalkable(r.value.0[k].0, r.value.0[k].1))
              && spots <= r.value.0
              && |r.value.0| == Max(count, |spots|)
    decreases fuel
  {
    if |spots| < count && fuel > 0 && maze.cols > 0 {
      var row := NextInt(stream(base), maze.rows);
      var col := NextInt(stream(base + 1), maze.cols);
      if maze.IsWalkable(row, col) {
        SampleCollectibleSpotsSound(maze, count, stream, base + 2, fuel - 1, spots + [(row, col)]);
      } else {
        SampleCollectibleSpotsSound(maze, count, stream, base + 2, fuel - 1, spots);
      }
    }
  }

  /** Neither sampling loop has an iteration bound. In a maze where no
      tile is acceptable the zombie sampling never completes, whatever
      the draws: every bound on the rounds runs out. */
  lemma {:induction false} ZombieSamplingNeverEnds(maze: Maze, count: int, pr: int, pc: int, stream: nat -> nat,
                                                   base: nat, fuel: nat, spots: seq<Spot>)
    requires maze.Valid() && maze.cols > 0 && |spots| < count
    requires forall r, c :: !ZombieAccepts(maze, pr, pc, spots, r, c)
    ensures SampleZombieSpots(maze, count, pr, pc, stream, base, fuel, spots) == Failure(Exhausted)
    decreases fuel
  {
    if fuel > 0 {
      ZombieSamplingNeverEnds(maze, count, pr, pc, stream, base + 2, fuel - 1, spots);
    }
  }

  /** A cramped maze: when every walkable tile lies within 3 tiles of the
      player's centre tile, no zombie is ever placed. */
  lemma CrampedMazeNeverSpawns(maze: Maze, count: int, pr: int, pc: int, stream: nat -> nat, base: nat, fuel: nat)
    requires maze.Valid() && maze.cols > 0 && count > 0
    requires forall r, c :: maze.IsWalkable(r, c) ==> Dist(r, c, pr, pc) < PLAYER_CLEARANCE
    ensures SampleZombieSpots(maze, count, pr, pc, stream, base, fuel, []) == Failure(Exhausted)
  {
    ZombieSamplingNeverEnds(maze, count, pr, pc, stream, base, fuel, []);
  }

  /** The same for collectibles in a maze with no walkable tile. */
  lemma {:induction false} CollectibleSamplingNeverEnds(maze: Maze, count: int, stream: nat -> nat, base: nat,
                                                        fuel: nat, spots: seq<Spot>)
    requires maze.Valid() && maze.cols > 0 && |spots| < count
    requires forall r, c :: !maze.IsWalkable(r, c)
    ensures SampleCollectibleSpots(maze, count, stream, base, fuel, spots) == Failure(Exhausted)
    decreases fuel
  {
    if fuel > 0 {
      CollectibleSamplingNeverEnds(maze, count, stream, base + 2, fuel - 1, spots);
    }
  }

  /** Marker k is the first one whose zombie box collides: the one at
      which the zombie constructor throws. */
  predicate FirstBlocked(maze: Maze, markers: seq<Spot>, k: int)
    requires maze.Valid()
  {
    && 0 <= k < |markers| && SpawnBlocked(maze, markers[k].0, markers[k].1)
    && forall j :: 0 <= j < k ==> !SpawnBlocked(maze, markers[j].0, markers[j].1)
  }

  /** The tile a zombie stands on, recovered from its top-left corner as
      ((int) (y / 32), (int) (x / 32)). */
  function ZombieTile(z: Zombie): Spot
    reads z
  {
    (TileIndex(z.y), TileIndex(z.x))
  }

  /** Where a collectible for tile (row, col) is put: 8 pixels in. */
  function CollectibleCorner(s: Spot): (int, int)
  {
    (HALF * (s.1 * TILE_SIZE + 8), HALF * (s.0 * TILE_SIZE + 8))
  }

  /** A new collectible for tile s: uncollected, full value, 16 pixels,
      centred on the tile, so that the tile is found again from its
      corner. */
  ghost predicate CollectiblePlaced(c: Collectible, s: Spot)
    reads c
  {
    && c.Valid() && !c.collected && c.currentValue == MAX_VALUE && c.size == COLLECTIBLE_SIZE
    && (c.x, c.y) == CollectibleCorner(s)
    && (TileIndex(c.y), TileIndex(c.x)) == s
  }

  /** A new zombie for tile s of `maze`: its state is valid and its box
      is centred on the tile. */
  ghost predicate ZombieBuilt(z: Zombie, maze: Maze, s: Spot)
    reads z
  {
    && z.Valid() && z.maze == maze
    && (z.x, z.y) == SpawnCorner(s.0, s.1)
  }

  /** A zombie built for tile s, which is recovered from its corner. */
  ghost predicate ZombiePlaced(z: Zombie, maze: Maze, s: Spot)
    reads z
  {
    ZombieBuilt(z, maze, s) && ZombieTile(z) == s
  }

  class Spawner {
    const maze: Maze
    /** The spawner's own `Random`, as an oracle stream; `drawn` counts the
        values taken. */
    const stream: nat -> nat
    var drawn: nat
    /** The stream of the k-th zombie built by one `spawnZombies` call. */
    const zombieStreams: nat -> (nat -> nat)
    /** `maze.getPlayerSpawn()` and `maze.getZombieSpawns()`. */
    const playerSpawn: Option<Spot>
    const zombieSpawns: seq<Spot>
    /** `GameConstant.COLLECTIBLE_COUNT`. */
    const collectibleCount: int
    var zombieCount: int

    /** `zombieCount` starts at `GameConstant.ZOMBIE_COUNT`, given here as
        `defaultZombieCount`. */
    constructor (maze: Maze, stream: nat -> nat, zombieStreams: nat -> (nat -> nat), playerSpawn: Option<Spot>,
                 zombieSpawns: seq<Spot>, defaultZombieCount: int, collectibleCount: int)
      ensures this.maze == maze && this.stream == stream && drawn == 0
      ensures this.zombieStreams == zombieStreams
      ensures this.playerSpawn == playerSpawn && this.zombieSpawns == zombieSpawns
      ensures zombieCount == defaultZombieCount && this.collectibleCount == collectibleCount
    {
      this.maze := maze;
      this.stream := stream;
      drawn := 0;
      this.zombieStreams := zombieStreams;
      this.playerSpawn := playerSpawn;
      this.zombieSpawns := zombieSpawns;
      zombieCount := defaultZombieCount;
      this.collectibleCount := collectibleCount;
    }

    /** Overrides the zombie count for the random placement. */
    method SetZombieCount(count: int)
      modifies this`zombieCount
      ensures zombieCount == count
    {
      zombieCount := count;
    }

    /** A new player on the player marker, or on tile (1, 1) without one. */
    method SpawnPlayer() returns (p: Player)
      ensures fresh(p) && p.maze == maze
      ensures var s := if playerSpawn.Some? then playerSpawn.value else (1, 1);
              p.x == HALF * (s.1 * TILE_SIZE + 7) && p.y == HALF * (s.0 * TILE_SIZE + 7)
    {
      if playerSpawn.Some? {
        var s := playerSpawn.value;
        p := new Player(s.0, s.1, maze);
        return;
      }
      p := new Player(1, 1, maze);
    }

    /** `new Zombie(row, col, maze)` for spot s, with its own stream. */
    method NewZombie(s: Spot, zombieStream: nat -> nat) returns (z: Zombie)
      requires maze.Valid() && !SpawnBlocked(maze, s.0, s.1)
      ensures fresh(z) && ZombieBuilt(z, maze, s)
    {
      z := new Zombie(s.0, s.1, maze, zombieStream);
    }

    /** With zombie markers, one zombie per marker, in marker order, built
        with the zombie constructor, which fails on a marker whose box
        collides; `zombieCount` is then ignored. */
    method SpawnAtMarkers() returns (r: Result<seq<Zombie>, SpawnError>)
      requires maze.Valid()
      ensures r.Ok? <==> forall k :: 0 <= k < |zombieSpawns| ==> !SpawnBlocked(maze, zombieSpawns[k].0, zombieSpawns[k].1)
      ensures r.Failure? ==> exists k :: FirstBlocked(maze, zombieSpawns, k) && r.error == InsideWall(zombieSpawns[k].0, zombieSpawns[k].1)
      ensures r.Ok? ==>
                && |r.value| == |zombieSpawns|
                && forall k :: 0 <= k < |r.value| ==>
                     fresh(r.value[k]) && ZombieBuilt(r.value[k], maze, zombieSpawns[k])
    {
      var zs: seq<Zombie> := [];
      for i := 0 to |zombieSpawns|
        invariant |zs| == i
        invariant forall k :: 0 <= k < i ==> !SpawnBlocked(maze, zombieSpawns[k].0, zombieSpawns[k].1)
        invariant forall k :: 0 <= k < i ==>
                    fresh(zs[k]) && ZombieBuilt(zs[k], maze, zombieSpawns[k])
      {
        var s := zombieSpawns[i];
        if SpawnBlocked(maze, s.0, s.1) {
          assert FirstBlocked(maze, zombieSpawns, i);
          return Failure(InsideWall(s.0, s.1));
        }
        var z := NewZombie(s, zombieStreams(i));
        zs := zs + [z];
      }
      return Ok(zs);
    }

    /** Whether (row, col) is at least 2 tiles from every zombie in `zs`,
        each zombie's tile recovered from its coordinates; stops at the
        first zombie too close. */
    method NotTooClose(zs: seq<Zombie>, ghost spots: seq<Spot>, row: int, col: int) returns (ok: bool)
      requires |zs| == |spots|
      requires forall k :: 0 <= k < |zs| ==> ZombieTile(zs[k]) == spots[k]
      ensures ok == FarFromAll(spots, row, col)
    {
      for i := 0 to |zs|
        invariant FarFromAll(spots[..i], row, col)
      {
        var z := zs[i];
        var zr := TileIndex(z.GetY());
        var zc := TileIndex(z.GetX());
        if Dist(row, col, zr, zc) < ZOMBIE_SPACING {
          assert spots[i] == (zr, zc);
          return false;
        }
        assert spots[..i + 1] == spots[..i] + [spots[i]];
      }
      assert spots[..|zs|] == spots;
      return true;
    }

    /** One pass of the random placement loop's body: draws a row, then a
        column, and builds a zombie there if the tile is walkable, at
        least 4 tiles from the player's tile (pr, pc) and at least 2 from
        every zombie in `zs`, standing on `spots`. */
    method ZombieRound(zs: seq<Zombie>, ghost spots: seq<Spot>, pr: int, pc: int)
      returns (row: int, col: int, z: Option<Zombie>)
      requires maze.Valid() && maze.cols > 0
      requires |zs| == |spots|
      requires forall k :: 0 <= k < |zs| ==> ZombieTile(zs[k]) == spots[k]
      modifies this`drawn
      ensures drawn == old(drawn) + 2
      ensures row == NextInt(stream(old(drawn)), maze.rows) && col == NextInt(stream(old(drawn) + 1), maze.cols)
      ensures z.Some? <==> ZombieAccepts(maze, pr, pc, spots, row, col)
      ensures z.Some? ==> fresh(z.value) && ZombiePlaced(z.value, maze, (row, col))
    {
      row := NextInt(stream(drawn), maze.GetRows());
      col := NextInt(stream(drawn + 1), maze.GetCols());
      drawn := drawn + 2;

      if !maze.IsWalkable(row, col) {
        return row, col, None;
      }

      if Dist(row, col, pr, pc) < PLAYER_CLEARANCE {
        return row, col, None;
      }

      var farEnough := NotTooClose(zs, spots, row, col);
      if !farEnough {
        return row, col, None;
      }

      SpawnOnWalkableTile(maze, row, col);
      SpawnTileRecovered(row, col);
      var zombie := NewZombie((row, col), zombieStreams(|zs|));
      return row, col, Some(zombie);
    }

    /** One round of random placement with its bookkeeping: the round is
        the next one of `SampleZombieSpots`, and a zombie it builds is
        appended to `zs` with its tile appended to `spots`. */
    method RandomStep(zs: seq<Zombie>, ghost spots: seq<Spot>, count: int, pr: int, pc: int, left: nat,
                      ghost spec: Result<(seq<Spot>, nat), SpawnError>)
      returns (zs': seq<Zombie>, ghost spots': seq<Spot>)
      requires maze.Valid() && maze.cols > 0 && left > 0 && |zs| < count && |zs| == |spots|
      requires forall k :: 0 <= k < |zs| ==> ZombiePlaced(zs[k], maze, spots[k])
      requires SampleZombieSpots(maze, count, pr, pc, stream, drawn, left, spots) == spec
      modifies this`drawn
      ensures |zs'| == |spots'| && SampleZombieSpots(maze, count, pr, pc, stream, drawn, left - 1, spots') == spec
      ensures |zs'| == |zs| || (|zs'| == |zs| + 1 && fresh(zs'[|zs|]))
      ensures forall k :: 0 <= k < |zs| ==> zs'[k] == zs[k]
      ensures forall k :: 0 <= k < |zs'| ==> ZombiePlaced(zs'[k], maze, spots'[k])
    {
      var row, col, z := ZombieRound(zs, spots, pr, pc);
      zs', spots' := zs, spots;
      if z.Some? {
        zs' := zs + [z.value];
        spots' := spots + [(row, col)];
      }
    }

    /** The random placement loop for `count` zombies around the player's
        tile (pr, pc): the zombies and the draws are those of
        `SampleZombieSpots`. */
    method PlaceAtRandom(count: int, pr: int, pc: int, fuel: nat) returns (r: Result<seq<Zombie>, SpawnError>, ghost spots: seq<Spot>)
      requires maze.Valid()
      modifies this`drawn
      ensures var spec := SampleZombieSpots(maze, count, pr, pc, stream, old(drawn), fuel, []);
              && (r.Failure? <==> spec.Failure?)
              && (r.Failure? ==> r.error == spec.error)
              && (r.Ok? ==> spec.value == (spots, drawn))
      ensures r.Ok? ==>
                && |r.value| == |spots|
                && forall k :: 0 <= k < |r.value| ==> fresh(r.value[k]) && ZombiePlaced(r.value[k], maze, spots[k])
    {
      ghost var spec := SampleZombieSpots(maze, count, pr, pc, stream, drawn, fuel, []);
      var zs: seq<Zombie> := [];
      spots := [];
      var left := fuel;
      while |zs| < count
        invariant |zs| == |spots|
        invariant SampleZombieSpots(maze, count, pr, pc, stream, drawn, left, spots) == spec
        invariant forall k :: 0 <= k < |zs| ==> fresh(zs[k]) && ZombiePlaced(zs[k], maze, spots[k])
        decreases left
      {
        if left == 0 {
          return Failure(Exhausted), spots;
        }
        if maze.GetCols() <= 0 {
          return Failure(BadBound), spots;
        }
        zs, spots := RandomStep(zs, spots, count, pr, pc, left, spec);
        left := left - 1;
      }
      return Ok(zs), spots;
    }

    /** Random placement: `zombieCount` zombies on walkable tiles at least
        4 tiles from the player's centre tile ((int) ((y + 9) / 32),
        (int) ((x + 9) / 32)) and at least 2 tiles from each other. The
        zombies and the draws are those of `SampleZombieSpots`. */
    method SpawnAtRandom(player: Player, fuel: nat) returns (r: Result<seq<Zombie>, SpawnError>, ghost spots: seq<Spot>)
      requires maze.Valid()
      modifies this`drawn
      ensures var spec := SampleZombieSpots(maze, zombieCount, CentreTile(player).0, CentreTile(player).1, stream, old(drawn), fuel, []);
              && (r.Failure? <==> spec.Failure?)
              && (r.Failure? ==> r.error == spec.error)
              && (r.Ok? ==> spec.value == (spots, drawn))
      ensures r.Ok? ==>
                && |r.value| == |spots|
                && forall k :: 0 <= k < |r.value| ==> fresh(r.value[k]) && ZombiePlaced(r.value[k], maze, spots[k])
    {
      var pr := TileIndex(player.GetY() + HALF * (PLAYER_SIZE / 2));
      var pc := TileIndex(player.GetX() + HALF * (PLAYER_SIZE / 2));
      r, spots := PlaceAtRandom(zombieCount, pr, pc, fuel);
    }

    /** `spawnZombies`: one zombie per marker when there are markers,
        random placement otherwise. */
    method SpawnZombies(player: Player, fuel: nat) returns (r: Result<seq<Zombie>, SpawnError>)
      requires maze.Valid()
      modifies this`drawn
      ensures |zombieSpawns| > 0 ==>
                && drawn == old(drawn)
                && (r.Ok? <==> forall k :: 0 <= k < |zombieSpawns| ==> !SpawnBlocked(maze, zombieSpawns[k].0, zombieSpawns[k].1))
                && (r.Failure? ==> exists k :: FirstBlocked(maze, zombieSpawns, k) && r.error == InsideWall(zombieSpawns[k].0, zombieSpawns[k].1))
                && (r.Ok? ==>
                      && |r.value| == |zombieSpawns|
                      && forall k :: 0 <= k < |r.value| ==>
                           fresh(r.value[k]) && ZombieBuilt(r.value[k], maze, zombieSpawns[k]))
      ensures |zombieSpawns| == 0 ==>
                var spec := SampleZombieSpots(maze, zombieCount, CentreTile(player).0, CentreTile(player).1, stream, old(drawn), fuel, []);
                && (spec.Failure? ==> r == Failure(spec.error))
                && (spec.Ok? ==>
                      && r.Ok? && |r.value| == |spec.value.0| && drawn == spec.value.1
                      && forall k :: 0 <= k < |r.value| ==>
                           fresh(r.value[k]) && ZombiePlaced(r.value[k], maze, spec.value.0[k]))
      ensures |zombieSpawns| == 0 && r.Ok? ==>
                var (pr, pc) := CentreTile(player);
                && |r.value| == Max(zombieCount, 0)
                && (forall k :: 0 <= k < |r.value| ==>
                      var (zr, zc) := ZombieTile(r.value[k]);
                      maze.IsWalkable(zr, zc) && Dist(zr, zc, pr, pc) >= PLAYER_CLEARANCE)
                && (forall i, j :: 0 <= i < j < |r.value| ==>
                      Dist(ZombieTile(r.value[i]).0, ZombieTile(r.value[i]).1,
                           ZombieTile(r.value[j]).0, ZombieTile(r.value[j]).1) >= ZOMBIE_SPACING)
    {
      if |zombieSpawns| > 0 {
        r := SpawnAtMarkers();
        return;
      }
      ghost var spots;
      r, spots := SpawnAtRandom(player, fuel);
      SampleZombieSpotsSound(maze, zombieCount, CentreTile(player).0, CentreTile(player).1, stream, old(drawn), fuel, []);
    }

    /** One pass of the collectible loop's body: draws a row, then a
        column, and builds a collectible centred there if the tile is
        walkable. */
    method CollectibleRound() returns (row: int, col: int, c: Option<Collectible>)
      requires maze.Valid() && maze.cols > 0
      modifies this`drawn
      ensures drawn == old(drawn) + 2
      ensures row == NextInt(stream(old(drawn)), maze.rows) && col == NextInt(stream(old(drawn) + 1), maze.cols)
      ensures c.Some? <==> maze.IsWalkable(row, col)
      ensures c.Some? ==> fresh(c.value) && CollectiblePlaced(c.value, (row, col))
    {
      row := NextInt(stream(drawn), maze.GetRows());
      col := NextInt(stream(drawn + 1), maze.GetCols());
      drawn := drawn + 2;

      if !maze.IsWalkable(row, col) {
        return row, col, None;
      }

      // (TILE_SIZE - SIZE) / 2.0 pixels is TILE_SIZE - SIZE half-pixels
      var x := HALF * col * TILE_SIZE + (TILE_SIZE - COLLECTIBLE_SIZE);
      var y := HALF * row * TILE_SIZE + (TILE_SIZE - COLLECTIBLE_SIZE);
      RecoveredTile(row, TILE_SIZE - COLLECTIBLE_SIZE);
      RecoveredTile(col, TILE_SIZE - COLLECTIBLE_SIZE);
      var collectible := new Collectible(x, y);
      return row, col, Some(collectible);
    }

    /** `collectibleCount` collectibles, each centred (8 pixels in) on a
        walkable tile drawn by `SampleCollectibleSpots`. The zombies are
        not consulted. */
    method SpawnCollectibles(zombies: seq<Zombie>, fuel: nat) returns (r: Result<seq<Collectible>, SpawnError>)
      requires maze.Valid()
      modifies this`drawn
      ensures var spec := SampleCollectibleSpots(maze, collectibleCount, stream, old(drawn), fuel, []);
              && (spec.Failure? ==> r == Failure(spec.error))
              && (spec.Ok? ==>
                    && r.Ok? && |r.value| == |spec.value.0| && drawn == spec.value.1
                    && forall k :: 0 <= k < |r.value| ==>
                         fresh(r.value[k]) && CollectiblePlaced(r.value[k], spec.value.0[k]))
      ensures r.Ok? ==>
                && |r.value| == Max(collectibleCount, 0)
                && forall k :: 0 <= k < |r.value| ==> maze.IsWalkable(TileIndex(r.value[k].y), TileIndex(r.value[k].x))
    {
      var count := collectibleCount;
      ghost var spec := SampleCollectibleSpots(maze, count, stream, drawn, fuel, []);

      var cs: seq<Collectible> := [];
      ghost var spots: seq<Spot> := [];
      var left := fuel;
      while |cs| < count
        invariant |cs| == |spots|
        invariant SampleCollectibleSpots(maze, count, stream, drawn, left, spots) == spec
        invariant forall k :: 0 <= k < |cs| ==>
                    fresh(cs[k]) && CollectiblePlaced(cs[k], spots[k])
        decreases left
      {
        if left == 0 {
          return Failure(Exhausted);
        }
        if maze.GetCols() <= 0 {
          return Failure(BadBound);
        }
        left := left - 1;
        var row, col, c := CollectibleRound();
        if c.Some? {
          cs := cs + [c.value];
          spots := spots + [(row, col)];
        }
      }
      SampleCollectibleSpotsSound(maze, count, stream, old(drawn), fuel, []);
      return Ok(cs);
    }
  }
}
