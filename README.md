# Maze survival game: a verified model of the simulation core

This project models the simulation engine of a tile-maze survival game and proves properties of it in Dafny. The player walks through a 15 × 15 grid of wall, floor and exit tiles. Zombies roam the grid. The player picks up decaying collectibles for points, and the exit opens once every collectible is taken.

The model covers these parts of the engine:

- the maze grid, its tiles and the built-in layout;
- the four-corner wall test shared by the player and the zombies;
- the player's axis-by-axis sliding move;
- zombie direction choice, wander bias and collision cooldown;
- collectible decay, collection and reset;
- the spawner's rejection sampling of zombie and collectible tiles;
- the per-frame collision and scoring pass;
- game mode and overlay fades;
- camera shake;
- the danger detector;
- the plain-text score file.

## Modelling conventions

- **Coordinates.** Positions are Java `double`s. Every constant ever added to them is a multiple of 0.5, so the model stores them as exact integers counting half-pixels (`HALF = 2`). Sizes stay in pixels, and a box spans `x .. x + HALF * size`.
- **Truncating casts.** The casts `(int)(x / 32)` truncate toward zero. They are written out as `JavaNum.IntDiv`, and nothing assumes coordinates stay non-negative.
- **Randomness.** Each `java.util.Random` object is a constant oracle stream `nat -> nat`, paired with a counter `drawn` of the values taken. This applies to the zombie, the spawner and the camera.
  - `nextInt(n)` is `raw % n`, and `nextBoolean()` is a parity test.
  - `Math.random()` in the collision pass is a stream `nat -> real`.
  - Results are stated as exact functions of the values drawn, and nothing is claimed about probabilities.
- **Missing members.** Some members the code calls are absent from the shown files: the player's lives, score and invincibility; the game component's fields; `overlap`; `handleGameEnd`; `loadLevel`. They become explicit stand-ins in module `Collisions`.
  - `PlayerStatus` holds the player's counters.
  - `Session` holds the game component's fields and keeps call logs: `endings` records the modes passed to `handleGameEnd`, and `levelLoads` records the levels passed to `loadLevel`.
  - `overlap` is a function parameter with no assumed properties.
- **Unbounded loops.** The spawner's sampling loops have no iteration bound. They take a `fuel` parameter, and running out of fuel is the explicit result `Failure(Exhausted)`. `Spawning.ZombieSamplingNeverEnds` and `Spawning.CollectibleSamplingNeverEnds` show inputs on which no amount of fuel suffices.
- **Fade levels.** The fade levels are Java `float`s and are modelled as exact reals.

Where the code does not compile as shown, the code's evident intent is followed and each assumption is listed under "## Left out":

- `new Tile(type, r, c)` against a one-argument constructor;
- `TileType.isWalkable()`, which the enum does not declare;
- constants and maze markers that the constants class and the maze lack.

## Model

| member | source | states |
|---|---|---|
| Tiles.Tile.GetType | src/model/Tile.java:8-16 | the returned kind is the one the tile was built with, and it determines the tile |
| Tiles.TileKinds | src/model/Tile.java:18-24 | a tile is non-walkable exactly when it is a WALL and is an exit exactly when it is an EXIT; an exit is walkable |
| Tiles.QueriesDependOnKindOnly | src/model/Tile.java:18-24 | two tiles of the same kind answer both queries alike |
| MazeGrid.Maze.constructor | src/model/Maze.java:14-24 | the nested loops build `rows = layout.length` rows of `cols = layout[0].length` tiles, cell (r, c) holding `layout[r][c]`; the layout needs a row and no row shorter than the first |
| MazeGrid.Maze.GetTile | src/model/Maze.java:38-40 | defined only in bounds (the source has no check); returns the grid cell at (row, col), whose kind is the one the constructor stored |
| MazeGrid.QueriesMeaning | src/model/Maze.java:26-36 | `inBounds` holds exactly for 0 ≤ row < rows and 0 ≤ col < cols; out of bounds (negative included) nothing is walkable or an exit; in bounds both queries are the tile's; every exit cell is walkable |
| MazeLayout.Shape | src/model/MazeLayout.java:10-44 | the layout has 15 rows of 15 tiles, which meets the maze constructor's requirement |
| MazeLayout.BorderIsWall | src/model/MazeLayout.java:15-43 | rows 0 and 14 and columns 0 and 14 are all WALL |
| MazeLayout.SingleExit | src/model/MazeLayout.java:41 | the only EXIT tile is at row 13, column 13 |
| MazeLayout.FallbackTileIsFloor | src/model/MazeLayout.java:17 | tile (1, 1), the spawner's fallback player tile, is FLOOR |
| JavaNum.IntDiv | src/model/Player.java:66-69 | Java's truncating integer division: the quotient times the divisor is within one divisor of the dividend, on the dividend's side of zero |
| JavaNum.HalfToInt | src/model/Player.java:60-63 | the `(int)` cast of a `double` given in half-pixels truncates toward zero |
| JavaNum.NextInt | src/model/Zombie.java:99-116 | a drawn `nextInt(bound)` lies in [0, bound) |
| WallCollision.TileIndexMatchesSource | src/model/Player.java:60-69 | the model's tile index of a half-pixel coordinate is the source's `(int) x / 32` |
| WallCollision.TileIndexOfNonNegative | src/model/Player.java:60-69 | for a non-negative coordinate the tile index is k exactly when the coordinate lies in tile k's span |
| WallCollision.TileIndexNearOrigin | src/model/Player.java:60-69 | truncation sends every coordinate strictly between -32 and 32 pixels to tile 0, negative ones included |
| WallCollision.OffGridCollides | src/model/Player.java:72-75 | a box with a corner outside the maze bounds collides |
| WallCollision.FlushAgainstWallCollides | src/model/Player.java:56-76 | the right corners are sampled at x + size inclusive, so a box whose right edge touches a wall tile's left edge collides |
| WallCollision.InsetBoxIsFree | src/model/Player.java:56-76 | a box inset into a walkable tile, with all four corners inside it, is free |
| WallCollision.RecoveredTile | src/model/Zombie.java:37-38 | a corner placed at k tiles plus an in-tile offset recovers tile k |
| Timers.CountdownAfterIs | src/model/Camera.java:25-27 | n countdown steps from t ≥ 0 leave max(0, t - n), never negative |
| Players.Player.constructor | src/model/Player.java:18-28 | the box's corner is at (col·32 + 7, row·32 + 7) pixels, speed 3, no wall check |
| Players.ResolveMoveAxes | src/model/Player.java:38-51 | x becomes x + dx exactly when the box at (x + dx, y) is free, otherwise stays; y becomes y + dy exactly when the box at (new x, y + dy) is free, otherwise stays |
| Players.ResolveMoveStaysFree | src/model/Player.java:38-51 | a move from a free box ends on a free box |
| Players.Player.Move | src/model/Player.java:38-51 | the new position is the axis-by-axis resolution of the old one, sliding along walls, and a free box stays free |
| Players.PlayerOnWalkableTileIsFree | src/model/Player.java:22-28 | a player placed on a walkable tile starts wall-free |
| Zombies.CandidateIsPerpendicular | src/model/Zombie.java:101-116 | each candidate is a non-zero one-axis step of 2.5 pixels; a vertical mover gets a horizontal one, a horizontal mover gets a vertical one |
| Zombies.ChooseSkipsFailures | src/model/Zombie.java:100-123 | blocked candidates are passed over: the choice after a run of failed attempts is the choice after the run |
| Zombies.ChooseStopsAt | src/model/Zombie.java:118-122 | the first free candidate is taken, after one more attempt |
| Zombies.ChooseAxes | src/model/Zombie.java:96-127 | the chosen heading is still or one axis at speed 2.5, perpendicular to a one-axis old heading |
| Zombies.ChooseIsFree | src/model/Zombie.java:100-126 | a non-zero chosen heading is wall-free one step ahead |
| Zombies.ChooseStillIff | src/model/Zombie.java:100-126 | with only moving candidates, the zombie stands still exactly when all remaining attempts fail |
| Zombies.CandsMove | src/model/Zombie.java:101-116 | no candidate from the random stream is the zero heading |
| Zombies.ChooseDraws | src/model/Zombie.java:100-126 | a choice draws between 1 and 10 values |
| Zombies.BiasedMeaning | src/model/Zombie.java:69-81 | the bias draws one value exactly when the timer passes 180 and the zombie is below the middle row, and only then may it change the heading, to straight up |
| Zombies.WanderPeriodic | src/model/Zombie.java:69-81 | from 0, the wander timer after n updates is n mod 181: it stays in [0, 180] and wraps every 181st update |
| Zombies.WanderAfterSplit | src/model/Zombie.java:69-81 | from any in-range timer, n updates give (t + n) mod 181 |
| Zombies.ZombieWallsOf | src/model/Zombie.java:130-147 | the zombie's wall set is exactly the set of positions where the four-corner test collides |
| Zombies.Zombie.constructor | src/model/Zombie.java:33-54 | the box is centred at (col·32 + 4, row·32 + 4) on a spot the wall test accepts; cooldown and timer are 0; the first heading is the choice from a standstill |
| Zombies.Zombie.CollidesWithWallInternal | src/model/Zombie.java:130-147 | true exactly when the box at the position hits a wall or leaves the maze |
| Zombies.Zombie.TriggerCollisionCooldown | src/model/Zombie.java:61-62 | the cooldown becomes 20 and the zombie is in cooldown |
| Zombies.Zombie.TickCooldown | src/model/Zombie.java:63 | a positive cooldown drops by one; zero stays |
| Zombies.Zombie.ChooseNewDirection | src/model/Zombie.java:96-127 | the new heading and the values drawn are those of the retry specification `Choose` from the old heading |
| Zombies.Zombie.Wander | src/model/Zombie.java:69-81 | the timer steps (and wraps) and the heading is the biased one, keeping the zombie's invariant |
| Zombies.Zombie.Advance | src/model/Zombie.java:83-92 | if either one-axis test fails, the zombie stays and re-chooses; otherwise it moves by exactly the heading |
| Zombies.Zombie.Update | src/model/Zombie.java:66-93 | one frame = cooldown tick, wander bias, then move or re-choose; the box stays wall-free, the heading stays one-axis and both timers stay in range |
| Zombies.Positions | src/model/Zombie.java:57-58 | the list of zombie corners, one per zombie in order |
| Zombies.SpawnTileRecovered | src/model/Zombie.java:37-38 | a zombie built on tile (row, col) recovers that tile from its corner |
| Zombies.SpawnOnWalkableTile | src/model/Zombie.java:33-43 | on a walkable tile all four corners fall inside the tile, so construction cannot throw |
| Collectibles.Collectible.constructor | src/model/Collectible.java:19-26 | uncollected, value 1000, size 16, at the given corner |
| Collectibles.Collectible.SetPosition | src/model/Entity.java:22-25 | both coordinates become exactly the arguments; the size is untouched |
| Collectibles.DecayMeaning | src/model/Collectible.java:29-34 | an uncollected positive value drops by 2, floored at 0; otherwise it is unchanged; it stays in [0, 1000] and never rises |
| Collectibles.DecayAfterIs | src/model/Collectible.java:29-34 | n decays from a value v ≥ 0 leave max(0, v - 2n) |
| Collectibles.DecayFromFull | src/model/Collectible.java:29-34 | from full value, 100 decays leave 800, and 500 or more leave 0 |
| Collectibles.Collectible.UpdateValue | src/model/Collectible.java:29-34 | the value is the decayed one, never higher and still in [0, 1000] |
| Collectibles.Collectible.Collect | src/model/Collectible.java:37-40 | marks the collectible collected and returns its unchanged value, even on a second call |
| Collectibles.Collectible.ResetValue | src/model/Collectible.java:43-45 | the value is 1000 again, collected or not |
| Cameras.ShakeOffsetRange | src/model/Camera.java:28-29 | every shake offset lies in [-3, 3], and each value there can be drawn |
| Cameras.ShakeRunsOut | src/model/Camera.java:21-34 | after a trigger, the timer is 8 - n during the first 8 updates and 0 from then on |
| Cameras.Camera.constructor | src/model/Camera.java:15-19 | no shake and zero offsets |
| Cameras.Camera.TriggerShake | src/model/Camera.java:21-23 | the timer becomes 8 |
| Cameras.Camera.Update | src/model/Camera.java:25-34 | a running timer drops by one and two fresh offsets in [-3, 3] are drawn; at 0 both offsets are set to 0 |
| Danger.NoZombiesNoDanger | src/model/DangerDetector.java:21-31 | with no zombies nothing is near |
| Danger.AnyNearOrderFree | src/model/DangerDetector.java:21-31 | the result depends only on which zombie positions occur, not on their order |
| Danger.DangerDetector.constructor | src/model/DangerDetector.java:10 | starts out of danger |
| Danger.DangerDetector.Update | src/model/DangerDetector.java:16-32 | the flag is recomputed from scratch: true exactly when some zombie corner is closer than the limit (squared distances), leaving player and zombies untouched |
| GameStates.ModeQueriesExclusive | src/model/GameStateManager.java:18-22 | at most one of the five mode queries holds, and none in the transition and rules modes |
| GameStates.FadeOutMeaning | src/model/GameStateManager.java:39-42 | the title fade never raises the level, keeps it in [0, 1], and strictly lowers a positive level once the title is left |
| GameStates.FadeInMeaning | src/model/GameStateManager.java:44-69 | an overlay fade keeps the level in [0, 1], is 0 while its mode is inactive and never lowers it while active |
| GameStates.FadeOutStep | src/model/GameStateManager.java:39-42 | the imperative title step computes the fade-out function |
| GameStates.FadeInStep | src/model/GameStateManager.java:44-69 | the imperative overlay step computes the fade-in function |
| GameStates.GameStateManager.constructor | src/model/GameStateManager.java:5-13 | title mode, title alpha 1, other alphas 0, no new high score |
| GameStates.GameStateManager.SetMode | src/model/GameStateManager.java:16 | any mode is accepted unconditionally |
| GameStates.GameStateManager.SetNewHighScore | src/model/GameStateManager.java:32-35 | stores the flag and restarts the banner fade from 0 |
| GameStates.GameStateManager.UpdateFades | src/model/GameStateManager.java:37-77 | each alpha takes its fade step, all stay in [0, 1], the title alpha never rises, the banner moves only while the flag is set, and mode and flag are untouched |
| GameStates.GameStateManager.Reset | src/model/GameStateManager.java:79-88 | the state equals the start-up state |
| Spawning.DistIsMetric | src/model/Spawner.java:35-37 | Manhattan distance is non-negative, 0 exactly for the same tile, symmetric, and obeys the triangle inequality |
| Spawning.WellSpacedExtend | src/model/Spawner.java:66-85 | adding an accepted tile keeps the zombie tiles walkable, clear of the player and pairwise spaced |
| Spawning.SampleZombieSpotsSound | src/model/Spawner.java:54-88 | a completed sampling yields exactly `zombieCount` tiles, walkable, at distance ≥ 4 from the player's centre tile and pairwise ≥ 2 apart |
| Spawning.SampleCollectibleSpotsSound | src/model/Spawner.java:92-113 | a completed sampling yields exactly `COLLECTIBLE_COUNT` walkable tiles, with no spacing rule |
| Spawning.ZombieSamplingNeverEnds | src/model/Spawner.java:60-86 | the zombie loop has no iteration bound: when no tile is acceptable it never completes, for every bound on the rounds and every draw |
| Spawning.CrampedMazeNeverSpawns | src/model/Spawner.java:60-69 | a maze whose walkable tiles all lie within 3 tiles of the player's centre tile never places a zombie |
| Spawning.CollectibleSamplingNeverEnds | src/model/Spawner.java:97-110 | the collectible loop has no iteration bound: with no walkable tile it never completes |
| Spawning.Spawner.constructor | src/model/Spawner.java:16-18 | keeps the maze, the random streams, the markers and the counts |
| Spawning.Spawner.SetZombieCount | src/model/Spawner.java:21-23 | sets the count |
| Spawning.Spawner.SpawnPlayer | src/model/Spawner.java:26-32 | a fresh player on the spawn marker's tile, or on tile (1, 1) when there is none |
| Spawning.Spawner.NewZombie | src/model/Spawner.java:47-50 | a fresh valid zombie centred on the given tile |
| Spawning.Spawner.SpawnAtMarkers | src/model/Spawner.java:45-51 | one zombie per marker in marker order; fails exactly when some marker's box collides, naming the first such marker, where the zombie constructor throws |
| Spawning.Spawner.NotTooClose | src/model/Spawner.java:72-82 | true exactly when the tile is at distance ≥ 2 from every zombie so far |
| Spawning.Spawner.ZombieRound | src/model/Spawner.java:62-85 | draws row then column, and adds a zombie exactly when the tile is walkable, clear of the player and spaced from the others |
| Spawning.Spawner.RandomStep | src/model/Spawner.java:60-86 | one loop round advances the sampling specification, keeping every zombie built on its tile |
| Spawning.Spawner.PlaceAtRandom | src/model/Spawner.java:54-88 | the zombies and draws are exactly those of the sampling specification, including its failures |
| Spawning.Spawner.SpawnAtRandom | src/model/Spawner.java:54-88 | the random branch for the player's centre tile agrees with the sampling specification |
| Spawning.Spawner.SpawnZombies | src/model/Spawner.java:40-89 | with markers: one zombie per marker and no draws, `zombieCount` ignored, or the first blocked marker; without: exactly `zombieCount` walkable, spaced, player-clear zombies whose corner recovers their tile |
| Spawning.Spawner.CollectibleRound | src/model/Spawner.java:97-110 | draws row then column and adds a full-value collectible inset 8 pixels exactly when the tile is walkable |
| Spawning.Spawner.SpawnCollectibles | src/model/Spawner.java:92-113 | exactly `COLLECTIBLE_COUNT` collectibles, each on a walkable tile; the zombie list is ignored |
| Scores.Digits | src/model/ScoreManager.java:19 | the decimal digits of a natural number: at least one, all digits |
| Scores.DigitsRoundTrip | src/model/ScoreManager.java:19-38 | parsing the printed digits gives the number back |
| Scores.IntToStringRoundTrip | src/model/ScoreManager.java:19-38 | every 32-bit score prints to a string `parseInt` accepts and reads back as the same score |
| Scores.Fields | src/model/ScoreManager.java:31 | splitting on ',' yields at least one field |
| Scores.FieldsNoComma | src/model/ScoreManager.java:31 | a string without ',' is one field |
| Scores.FieldsAfterName | src/model/ScoreManager.java:31 | a comma-free name followed by ',' splits off as the first field |
| Scores.SplitSavedLine | src/model/ScoreManager.java:19-31 | a saved `name,score` line splits back into exactly those two fields |
| Scores.Kept | src/model/ScoreManager.java:30-33 | the lines kept are those with exactly two fields, in file order |
| Scores.KeptAppend | src/model/ScoreManager.java:30-33 | appending a line adds its record to the kept ones exactly when it has two fields |
| Scores.WithKeyAppend | src/model/ScoreManager.java:36-39 | the records of one score in a concatenation are those of each part in order |
| Scores.InsertElements | src/model/ScoreManager.java:36-39 | insertion adds exactly the one record |
| Scores.InsertFrom | src/model/ScoreManager.java:36-39 | every record after insertion is the new one or an old one |
| Scores.ConsSorted | src/model/ScoreManager.java:36-39 | a record no smaller than a sorted list's records can go in front |
| Scores.InsertSorted | src/model/ScoreManager.java:36-39 | insertion keeps a list sorted by descending score |
| Scores.InsertWithKey | src/model/ScoreManager.java:36-39 | insertion places a record after every equal-score record already there (stability) |
| Scores.WithKeyBelow | src/model/ScoreManager.java:36-39 | a sorted list whose top is below v holds no record of score v |
| Scores.SortByProps | src/model/ScoreManager.java:36-39 | the sort yields a descending, same-length permutation in which the records of each score keep their order |
| Scores.FirstIsBest | src/model/ScoreManager.java:57 | the head of a sorted list has the top score |
| Scores.SavedRecordLoaded | src/model/ScoreManager.java:17-33 | after appending `name,score` with a comma- and break-free name, the kept and sorted records of the file include [name, score] |
| Scores.SaveThenLoad | src/model/ScoreManager.java:17-41 | after saving (name, s) with a comma- and break-free name, in a file whose records `LoadScores` can sort, loading contains [name, s] and its key is s |
| Scores.ScoreFile.constructor | src/model/ScoreManager.java:11 | a file with the given lines, or a missing file, which holds no lines (`Valid`) |
| Scores.ScoreFile.SaveScore | src/model/ScoreManager.java:17-23 | appends exactly the line `name,score` and keeps earlier lines, so a missing file is created holding that line alone; an I/O error changes nothing; `Valid` (a missing file holds no lines) is kept |
| Scores.ScoreFile.ResetScores | src/model/ScoreManager.java:45-51 | the file is emptied, so loading yields nothing; an I/O error changes nothing |
| Scores.ScoreFile.LoadScores | src/model/ScoreManager.java:26-42 | the two-field lines, sorted by descending score, a stable permutation of the kept records; a missing file gives an empty list |
| Scores.ScoreFile.IsNewHighScore | src/model/ScoreManager.java:54-59 | true for no records, otherwise exactly when the score beats every recorded score, that is the top one |
| Collisions.PlayerStatus.constructor | src/ui/CollisionSystem.java:25-31 | the player's lives, no score, not invincible |
| Collisions.PlayerStatus.LoseLife | src/ui/CollisionSystem.java:26 | one life fewer |
| Collisions.PlayerStatus.TriggerInvincibility | src/ui/CollisionSystem.java:27 | the player becomes invincible |
| Collisions.PlayerStatus.TriggerFlash | src/ui/CollisionSystem.java:28 | one more hit flash started |
| Collisions.PlayerStatus.AddScore | src/ui/CollisionSystem.java:56 | the score grows by the amount |
| Collisions.Session.constructor | src/ui/CollisionSystem.java:52-111 | the component's flags cleared, given level and limit, empty call logs |
| Collisions.Session.HandleGameEnd | src/ui/CollisionSystem.java:31-34 | records one game end with its mode |
| Collisions.Session.LoadLevel | src/ui/CollisionSystem.java:102 | records one level load with its number |
| Collisions.FirstHit | src/ui/CollisionSystem.java:17-37 | applied to the touch flags, the index of the first touching zombie (out of cooldown and overlapping), or the list length when none |
| Collisions.Touches | src/ui/CollisionSystem.java:18-21 | a zombie counts as touching exactly when it is not in cooldown and overlaps the player |
| Collisions.Hurt | src/ui/CollisionSystem.java:25-30 | a hurt costs one life, makes the player invincible, adds a flash and starts an 8-frame shake |
| Collisions.HitZombie | src/ui/CollisionSystem.java:18-35 | a touching zombie enters cooldown whether or not the player is invincible; only a non-invincible player is hurt; `dead` reports a hurt that leaves no life |
| Collisions.Cooldowns | src/ui/CollisionSystem.java:18 | the zombies' cooldowns, in order |
| Collisions.HitStep | src/ui/CollisionSystem.java:17-37 | one round of the zombie loop keeps the cooldown and hurt invariants and leaves every position alone |
| Collisions.HitZombies | src/ui/CollisionSystem.java:17-37 | zombies in cooldown are skipped; touching ones up to the fatal hit get cooldown 20; the player is hurt at most once, and only if not invincible; `dead` is a fatal first hit |
| Collisions.ResetRest | src/ui/CollisionSystem.java:73-77 | uncollected items are back at full value and collected ones untouched |
| Collisions.ResetRemaining | src/ui/CollisionSystem.java:73-77 | the collectibles now show the reset item list |
| Collisions.Reward | src/ui/CollisionSystem.java:49-70 | the score grows by the value, doubled while double points are on, and two random rolls may switch on freeze and double points |
| Collisions.VisitFrame | src/ui/CollisionSystem.java:44-78 | one visit collects exactly the touched uncollected item, keeps values in range, and after a collection every other uncollected item is full |
| Collisions.VisitFromCollects | src/ui/CollisionSystem.java:44-81 | after the loop an item is collected exactly when it was already or it was touched; two rolls are drawn per new collection; bonuses are never switched off |
| Collisions.GainsFrame | src/ui/CollisionSystem.java:45 | the number of new collections depends only on which items were already collected |
| Collisions.VisitFromScore | src/ui/CollisionSystem.java:49-56 | the score never drops and rises by at most 2000 per new collection |
| Collisions.VisitFromResets | src/ui/CollisionSystem.java:73-77 | with no new collection nothing changes; after one every uncollected item is full |
| Collisions.CollectedCountAll | src/ui/CollisionSystem.java:80-86 | the loop's count equals the list size exactly when every item is collected, an empty list included |
| Collisions.CollectedCountFrame | src/ui/CollisionSystem.java:80 | the count depends only on which items are collected |
| Collisions.Items | src/ui/CollisionSystem.java:44-81 | the collected flag and value of each collectible, in order |
| Collisions.Reaches | src/ui/CollisionSystem.java:46-47 | which collectibles overlap the player, in order |
| Collisions.CollectOne | src/ui/CollisionSystem.java:45-78 | one collectible's visit matches the specification `Visit` |
| Collisions.CollectStep | src/ui/CollisionSystem.java:44-81 | one loop round advances the specification and the collected count |
| Collisions.CollectItems | src/ui/CollisionSystem.java:42-81 | the collectibles and counters end as the loop specification from the old state says, and the count is the number collected |
| Collisions.TakeExit | src/ui/CollisionSystem.java:91-111 | on an unlocked exit below the last level: carry-over score, next level loaded, transition mode; on the last level: WIN; otherwise nothing |
| Collisions.CollectAndUnlock | src/ui/CollisionSystem.java:42-86 | the collection loop's outcome; the exit is unlocked when it was or every collectible is now collected, and never locked here |
| Collisions.FinishPass | src/ui/CollisionSystem.java:42-111 | the collection outcome and unlock, then the exit check on the unlocked state and the player's centre tile: next level with carry-over score and TRANSITION below the last level, WIN on it, otherwise nothing |
| Collisions.AfterHits | src/ui/CollisionSystem.java:31-111 | a fatal hit ends the game with GAME_OVER and leaves the collectibles, score, bonus flags, roll counter, lock, level, carry-over score, transition flag and mode as they were (`EndedOver`); otherwise collection, with its score, bonus flags and rolls, unlock and exit check run as in `FinishPass` (`Finished`) |
| Collisions.LoseAtMostOne | src/ui/CollisionSystem.java:17-37 | the zombie loop costs at most one life, lost exactly when the player is not invincible and some zombie out of cooldown touches it, and reports a loss that leaves none |
| Collisions.ZombiePhase | src/ui/CollisionSystem.java:17-37 | the zombie loop loses a life exactly as in `LoseAtMostOne` and leaves untouched everything the rest of the pass reads: collectibles, score, bonus flags, roll counter, overlaps, lock, level, logs and mode |
| Collisions.Update | src/ui/CollisionSystem.java:8-112 | at most one life is lost, exactly when the player is not invincible and some zombie out of cooldown touches it; a fatal loss ends the game with GAME_OVER and touches no collectible, score, bonus flag, roll counter, lock, level, carry-over score, transition flag or mode; otherwise the score, bonus flags, rolls and collectibles follow the collection specification, the exit unlocks once all are collected, and the exit check advances the level or wins |

## Left out

- Painting is not modelled: `Tile.draw`, `Camera.apply`, `Camera.reset`, the renderer's freeze and double-points effects, and all of `Renderer`, `HUD`, `OverlayRenderer`, `LeaderboardPanel`, `GameWindow` and `GameComponent` as shown. They are drawing and window code.
- The zombie sprite read through `ImageIO` is not modelled, because it is foreign I/O that does not affect the simulation.
- The `System.currentTimeMillis()` stamps in the collision pass are not modelled, because nothing in the core reads them.
- Probabilities are out of scope, because random draws are oracle values. This covers the 15% bonus odds, the 35% wander odds and the distribution of spawn tiles.
- The spawner's loops are bounded by a `fuel` parameter. When the fuel runs out, the model returns `Failure(Exhausted)`, whereas the source would keep looping. The source guarantees no termination either: on a maze with no acceptable tile its loops never end, which `Spawning.ZombieSamplingNeverEnds`, `Spawning.CrampedMazeNeverSpawns` and `Spawning.CollectibleSamplingNeverEnds` state for every amount of fuel.
- Doubles are modelled as exact half-pixel integers and floats as exact reals. Rounding, and the number of float steps a fade takes, are not modelled.
- Java `int` overflow is not modelled in the score, the levels or the pixel arithmetic. The model's integers are unbounded.
- `DangerDetector` compares `Math.sqrt` of the squared distance with the limit. The model compares squared distances, which is the same test for a positive limit without the square-root rounding.
- Several names are not declared in the shown files and become parameters or constructor arguments: `GameConstant.ZOMBIE_COUNT`, `COLLECTIBLE_COUNT`, `DANGER_DISTANCE_TILES` and `maze.getPlayerSpawn`/`getZombieSpawns`. `Maze.TILE_SIZE`, used by the collision pass, is not declared by `Maze` either; the model uses 32, the tile size everywhere else.
- `Maze` calls `new Tile(type, r, c)` against a one-argument constructor. The model keeps only the kind.
- `TileType.isWalkable()` is not declared. It is assumed to be "not WALL", which is what `Tile.draw`'s branches describe.
- The `Player` members the pass calls are not in the shown `Player` (`isInvincible`, `loseLife`, `triggerInvincibility`, `triggerFlash`, `isDead`, `addScore`, `getScore`). They are modelled by `Collisions.PlayerStatus` with their evident meaning (dead at no lives left). The invincibility timer is not modelled.
- `gc.overlap` is an uninterpreted parameter. `handleGameEnd` and `loadLevel` are recorded as calls in `endings` and `levelLoads`, and the model assumes they change nothing else. The exit outcome (carry-over score and level after `loadLevel`) and the fatal-pass claim that no lock or level changes rest on that assumption.
- Collisions.Update: requires the zombie and collectible lists to hold no object twice (`Distinct`). The Java lists could alias; the game never builds them that way.
- Collisions.Update: its contract states when a life is lost, the score, bonus flags, roll counter, collectibles, unlock and exit outcome; the zombie cooldowns, the invincibility flag, the flashes and the camera shake are stated by `Collisions.HitZombies` rather than repeated in the whole pass.
- Zombies.Zombie.constructor: the `IllegalArgumentException` for a spawn box that collides is a precondition. The spawner performs the same wall test before building and reports `Failure(InsideWall)`.
- Zombies.Zombie.Advance: the source's `||` skips the second wall test when the first already fails. The model computes both, which is equivalent because the test has no side effects.
- Players.Player.constructor: `speed` is stored but `move` takes its deltas from the caller, as in the source.
- Scores.ScoreFile.SaveScore: names are assumed to hold no line break. The model appends `name,score` as one line, whereas `Scanner.nextLine` would read a name with a line break back as several lines; `Scores.SaveThenLoad` states the round trip under the same assumption.
- File I/O in `ScoreManager` is modelled as a `ScoreFile` with a list of lines and a `present` flag. The log-and-ignore `IOException` paths become an `ioError` argument that leaves the file unchanged.
- Scores.ScoreFile.LoadScores: requires every kept second field to be a decimal 32-bit integer once two or more records are kept, where `Integer.parseInt` in the comparator would otherwise throw.
- Scores.ScoreFile.IsNewHighScore: requires the same of every kept record, because it also parses the top one.
- Scores.IntToString: covers 32-bit values, matching the `int` score. `Integer.toString` and `parseInt` are written out for ASCII decimal digits only; `parseInt` also accepts other Unicode decimal digits (through `Character.digit`), so a file holding such a score field is outside `LoadScores`' precondition. `SaveScore` never writes one.
- `List.sort` is specified by a stable insertion sort. The library's own algorithm is not modelled, only the result it promises: descending, a permutation, stable.
