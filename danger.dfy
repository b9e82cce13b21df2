/** The danger detector: the player is in danger when some zombie's
    top-left corner is closer to the player's top-left corner than a
    given number of tiles. The source compares a `Math.sqrt` distance with
    the limit; here the comparison is made on squared distances, which
    agrees with it for a positive limit. */
module Danger {
  import opened WallCollision
  import opened Players
  import opened Zombies

  /** Whether the corners (px, py) and (zx, zy), in half-pixels, are
      closer than `limit` half-pixels: sqrt(dx² + dy²) < limit. No
      distance is below a limit of zero or less. */
  predicate Near(px: int, py: int, zx: int, zy: int, limit: int)
  {
    var dx := px - zx;
    var dy := py - zy;
    limit > 0 && dx * dx + dy * dy < limit * limit
  }

  /** Some position in `zs` is near (px, py). */
  predicate AnyNear(px: int, py: int, zs: seq<(int, int)>, limit: int)
  {
    exists k :: 0 <= k < |zs| && Near(px, py, zs[k].0, zs[k].1, limit)
  }

  /** No zombie, no danger. */
  lemma NoZombiesNoDanger(px: int, py: int, limit: int)
    ensures !AnyNear(px, py, [], limit)
  {
  }

  /** The answer depends only on which positions occur, not on their
      order or on how often they occur. */
  lemma AnyNearOrderFree(px: int, py: int, a: seq<(int, int)>, b: seq<(int, int)>, limit: int)
    requires multiset(a) == multiset(b)
    ensures AnyNear(px, py, a, limit) <==> AnyNear(px, py, b, limit)
  {
    if AnyNear(px, py, a, limit) {
      var k :| 0 <= k < |a| && Near(px, py, a[k].0, a[k].1, limit);
      assert a[k] in multiset(b);
      var j :| 0 <= j < |b| && b[j] == a[k];
    }
    if AnyNear(px, py, b, limit) {
      var k :| 0 <= k < |b| && Near(px, py, b[k].0, b[k].1, limit);
      assert b[k] in multiset(a);
      var j :| 0 <= j < |a| && a[j] == b[k];
    }
  }

  class DangerDetector {
    var inDanger: bool
    /** `GameConstant.DANGER_DISTANCE_TILES`, which the constants class
        shown does not declare. */
    const dangerTiles: int

    constructor (dangerTiles: int)
      ensures !inDanger && this.dangerTiles == dangerTiles
    {
      inDanger := false;
      this.dangerTiles := dangerTiles;
    }

    predicate IsInDanger() reads this { inDanger }

    /** The limit in half-pixels: `DANGER_DISTANCE_TILES * TILE_SIZE`
        pixels. */
    function Limit(): int
    {
      HALF * dangerTiles * TILE_SIZE
    }

    /** Recomputes the flag from scratch: it is set exactly when some
        zombie is near the player, whatever it was before. Only the flag
        changes. */
    method Update(player: Player, zombies: seq<Zombie>)
      modifies this`inDanger
      ensures inDanger == AnyNear(player.x, player.y, Positions(zombies), Limit())
    {
      var limit := HALF * dangerTiles * TILE_SIZE;
      var px := player.GetX();
      var py := player.GetY();

      inDanger := false;

      for i := 0 to |zombies|
        invariant !inDanger
        invariant forall j :: 0 <= j < i ==> !Near(px, py, zombies[j].x, zombies[j].y, limit)
      {
        var z := zombies[i];
        if Near(px, py, z.GetX(), z.GetY(), limit) {
          inDanger := true;
          assert Positions(zombies)[i] == (z.x, z.y);
          return;
        }
      }
    }
  }
}
