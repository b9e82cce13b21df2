/** The per-frame collision and scoring pass: zombie hits, collecting,
    unlocking the exit, and leaving the level through it.

    The player's lives, score and invincibility, the game component's
    flags and counters, and its `overlap`, `handleGameEnd` and `loadLevel`
    are not part of the classes shown. They are modelled here with the
    least behaviour their names promise: `PlayerStatus` holds the player's
    counters, `Session` the game component's fields, `overlap` is a
    parameter, and the two calls whose bodies are unknown are recorded in
    call logs. `Math.random()` is an oracle stream of reals. */
module Collisions {
  import opened WallCollision
  import opened MazeGrid
  import opened Players
  import opened Zombies
  import opened Collectibles
  import opened Cameras
  import opened GameStates

  /** `Math.random() < 0.15`: the chance of a freeze, and of double
      points, after each collection. */
  const BONUS_CHANCE: real := 0.15

  /** `gc.overlap(x1, y1, size1, x2, y2, size2)`, whose body is not shown;
      positions in half-pixels, sizes in pixels. */
  type Overlap = (int, int, int, int, int, int) -> bool

  /** The player's counters used by the pass. */
  class PlayerStatus {
    var lives: int
    var score: int
    var invincible: bool
    /** How often the hit flash was started. */
    var flashes: nat

    constructor (lives: int)
      ensures this.lives == lives && score == 0 && !invincible && flashes == 0
    {
      this.lives := lives;
      score := 0;
      invincible := false;
      flashes := 0;
    }

    predicate IsInvincible() reads this`invincible { invincible }

    predicate IsDead() reads this`lives { lives <= 0 }

    function GetScore(): int reads this`score { score }

    method LoseLife()
      modifies this`lives
      ensures lives == old(lives) - 1
    {
      lives := lives - 1;
    }

    method TriggerInvincibility()
      modifies this`invincible
      ensures invincible
    {
      invincible := true;
    }

    method TriggerFlash()
      modifies this`flashes
      ensures flashes == old(flashes) + 1
    {
      flashes := flashes + 1;
    }

    method AddScore(n: int)
      modifies this`score
      ensures score == old(score) + n
    {
      score := score + n;
    }
  }

  /** The game component's state that the pass reads and writes. */
  class Session {
    var doublePointsActive: bool
    var freezeActive: bool
    var exitUnlocked: bool
    var currentLevel: int
    var maxLevel: int
    var carryoverScore: int
    var inTransition: bool
    const camera: Camera
    const gsm: GameStateManager
    /** `Math.random()`, and the number of values taken from it. */
    const random: nat -> real
    var randomDrawn: nat
    /** The modes passed to `handleGameEnd`, in call order. */
    var endings: seq<GameMode>
    /** The levels passed to `loadLevel`, in call order. */
    var levelLoads: seq<int>

    constructor (camera: Camera, gsm: GameStateManager, level: int, maxLevel: int, random: nat -> real)
      ensures this.camera == camera && this.gsm == gsm && this.random == random
      ensures currentLevel == level && this.maxLevel == maxLevel && randomDrawn == 0
      ensures !doublePointsActive && !freezeActive && !exitUnlocked && !inTransition
      ensures carryoverScore == 0 && endings == [] && levelLoads == []
    {
      this.camera := camera;
      this.gsm := gsm;
      this.random := random;
      currentLevel := level;
      this.maxLevel := maxLevel;
      randomDrawn := 0;
      doublePointsActive := false;
      freezeActive := false;
      exitUnlocked := false;
      inTransition := false;
      carryoverScore := 0;
      endings := [];
      levelLoads := [];
    }

    /** `handleGameEnd(mode)`. */
    method HandleGameEnd(mode: GameMode)
      modifies this`endings
      ensures endings == old(endings) + [mode]
    {
      endings := endings + [mode];
    }

    /** `loadLevel(level)`. */
    method LoadLevel(level: int)
      modifies this`levelLoads
      ensures levelLoads == old(levelLoads) + [level]
    {
      levelLoads := levelLoads + [level];
    }
  }

  // ---------------------------------------------------------------
  // Zombie hits
  // ---------------------------------------------------------------

  /** The index of the first true entry, or |t| if there is none. */
  function FirstHit(t: seq<bool>): (f: nat)
    ensures f <= |t|
    ensures forall k :: 0 <= k < f ==> !t[k]
    ensures f < |t| ==> t[f]
    decreases |t|
  {
    if |t| == 0 then 0
    else if t[0] then 0
    else
      var f := 1 + FirstHit(t[1..]);
      assert forall k :: 1 <= k < f ==> t[k] == t[1..][k - 1];
      f
  }

  /** Which zombies the pass hits: those out of cooldown that overlap the
      player at (px, py). */
  function Touches(zs: seq<Zombie>, overlap: Overlap, px: int, py: int): (t: seq<bool>)
    reads zs`collisionCooldown, zs`x, zs`y
    ensures |t| == |zs|
    ensures forall k {:trigger t[k]} :: 0 <= k < |zs| ==>
              t[k] == (!zs[k].IsInCollisionCooldown() && overlap(px, py, PLAYER_SIZE, zs[k].x, zs[k].y, ZOMBIE_SIZE))
  {
    if zs == [] then []
    else
      [!zs[0].IsInCollisionCooldown() && overlap(px, py, PLAYER_SIZE, zs[0].x, zs[0].y, ZOMBIE_SIZE)]
      + Touches(zs[1..], overlap, px, py)
  }

  predicate Distinct<T(==)>(s: seq<T>)
  {
    forall i, j :: 0 <= i < j < |s| ==> s[i] != s[j]
  }

  // ---------------------------------------------------------------
  // Collecting, on values
  // ---------------------------------------------------------------

  /** A collectible's state as the pass sees it. */
  datatype Item = Item(collected: bool, value: int)

  /** The counters the collecting loop changes. */
  datatype Bonus = Bonus(score: int, double: bool, freeze: bool, drawn: nat)

  /** The reset after a collection: every uncollected item back to full
      value, the collected ones as they are. */
  function ResetRest(its: seq<Item>): (r: seq<Item>)
    ensures |r| == |its|
    ensures forall k :: 0 <= k < |its| ==> r[k] == if its[k].collected then its[k] else Item(false, MAX_VALUE)
  {
    seq(|its|, k requires 0 <= k < |its| => if its[k].collected then its[k] else Item(false, MAX_VALUE))
  }

  /** The counters after collecting an item of value v: v, doubled while
      double points are on, is added to the score, then one draw below
      0.15 starts a freeze and a second one double points. */
  function Award(b: Bonus, v: int, random: nat -> real): Bonus
  {
    var earned := if b.double then v * 2 else v;
    Bonus(b.score + earned, b.double || random(b.drawn + 1) < BONUS_CHANCE,
          b.freeze || random(b.drawn) < BONUS_CHANCE, b.drawn + 2)
  }

  /** The loop body for item i: an uncollected item the player touches is
      collected, the counters follow `Award`, and the other uncollected
      items are reset. Any other item changes nothing. */
  function Visit(its: seq<Item>, b: Bonus, i: nat, touching: bool, random: nat -> real): (seq<Item>, Bonus)
    requires i < |its|
  {
    if !its[i].collected && touching then
      (ResetRest(its[i := Item(true, its[i].value)]), Award(b, its[i].value, random))
    else (its, b)
  }

  /** The loop over items i onwards. */
  function VisitFrom(its: seq<Item>, b: Bonus, t: seq<bool>, i: nat, random: nat -> real): (seq<Item>, Bonus)
    requires |t| == |its| && i <= |its|
    decreases |its| - i
  {
    if i == |its| then (its, b)
    else
      var next := Visit(its, b, i, t[i], random);
      VisitFrom(next.0, next.1, t, i + 1, random)
  }

  /** Items i onwards that the pass collects. */
  function Gains(its: seq<Item>, t: seq<bool>, i: nat): nat
    requires |t| == |its| && i <= |its|
    decreases |its| - i
  {
    if i == |its| then 0 else (if t[i] && !its[i].collected then 1 else 0) + Gains(its, t, i + 1)
  }

  predicate InRange(its: seq<Item>)
  {
    forall k :: 0 <= k < |its| ==> 0 <= its[k].value <= MAX_VALUE
  }

  /** Every uncollected item is at full value. */
  predicate RestFull(its: seq<Item>)
  {
    forall k :: 0 <= k < |its| ==> !its[k].collected ==> its[k].value == MAX_VALUE
  }

  /** One visit changes only item i's collected flag and keeps values in
      range. */
  lemma VisitFrame(its: seq<Item>, b: Bonus, i: nat, touching: bool, random: nat -> real)
    requires i < |its|
    ensures var r := Visit(its, b, i, touching, random);
      && |r.0| == |its|
      && (forall k :: 0 <= k < |its| ==> r.0[k].collected == (its[k].collected || (k == i && touching)))
      && (InRange(its) ==> InRange(r.0))
      && (RestFull(its) ==> RestFull(r.0))
      && (!its[i].collected && touching ==> RestFull(r.0))
  {
  }

  /** After the loop an item is collected exactly when it was before or
      the player touches it; the counts of draws and the flags follow the
      number of collections. */
  lemma {:induction false} VisitFromCollects(its: seq<Item>, b: Bonus, t: seq<bool>, i: nat, random: nat -> real)
    requires |t| == |its| && i <= |its|
    ensures var r := VisitFrom(its, b, t, i, random);
      && |r.0| == |its|
      && (forall k :: 0 <= k < |its| ==> r.0[k].collected == (its[k].collected || (i <= k && t[k])))
      && r.1.drawn == b.drawn + 2 * Gains(its, t, i)
      && (b.double ==> r.1.double) && (b.freeze ==> r.1.freeze)
    decreases |its| - i
  {
    if i < |its| {
      var next := Visit(its, b, i, t[i], random);
      VisitFrame(its, b, i, t[i], random);
      VisitFromCollects(next.0, next.1, t, i + 1, random);
      GainsFrame(its, next.0, t, i + 1);
    }
  }

  /** Two item lists with the same collected flags from i on have the same
      number of collections ahead. */
  lemma {:induction false} GainsFrame(a: seq<Item>, b: seq<Item>, t: seq<bool>, i: nat)
    requires |t| == |a| == |b| && i <= |a|
    requires forall k :: i <= k < |a| ==> a[k].collected == b[k].collected
    ensures Gains(a, t, i) == Gains(b, t, i)
    decreases |a| - i
  {
    if i < |a| {
      GainsFrame(a, b, t, i + 1);
    }
  }

  /** Values stay in [0, 1000]; the score never drops and rises by at most
      2000, a doubled full value, per collection. */
  lemma {:induction false} VisitFromScore(its: seq<Item>, b: Bonus, t: seq<bool>, i: nat, random: nat -> real)
    requires |t| == |its| && i <= |its|
    requires InRange(its)
    ensures var r := VisitFrom(its, b, t, i, random);
      && InRange(r.0)
      && b.score <= r.1.score <= b.score + 2 * MAX_VALUE * Gains(its, t, i)
    decreases |its| - i
  {
    if i < |its| {
      var next := Visit(its, b, i, t[i], random);
      VisitFrame(its, b, i, t[i], random);
      VisitFromScore(next.0, next.1, t, i + 1, random);
      GainsFrame(its, next.0, t, i + 1);
    }
  }

  /** Once anything is collected, every item left uncollected ends at full
      value; if nothing is collected, nothing changes. */
  lemma {:induction false} VisitFromResets(its: seq<Item>, b: Bonus, t: seq<bool>, i: nat, random: nat -> real)
    requires |t| == |its| && i <= |its|
    ensures var r := VisitFrom(its, b, t, i, random);
      && (Gains(its, t, i) > 0 || RestFull(its) ==> RestFull(r.0))
      && (Gains(its, t, i) == 0 ==> r == (its, b))
    decreases |its| - i
  {
    if i < |its| {
      var next := Visit(its, b, i, t[i], random);
      VisitFrame(its, b, i, t[i], random);
      VisitFromResets(next.0, next.1, t, i + 1, random);
      GainsFrame(its, next.0, t, i + 1);
    }
  }

  /** The number of collected items among the first n. */
  function CollectedCount(its: seq<Item>, n: nat): nat
    requires n <= |its|
  {
    if n == 0 then 0 else CollectedCount(its, n - 1) + (if its[n - 1].collected then 1 else 0)
  }

  /** The count reaches n exactly when all first n items are collected. */
  lemma {:induction false} CollectedCountAll(its: seq<Item>, n: nat)
    requires n <= |its|
    ensures CollectedCount(its, n) <= n
    ensures CollectedCount(its, n) == n <==> forall k :: 0 <= k < n ==> its[k].collected
  {
    if n > 0 {
      CollectedCountAll(its, n - 1);
    }
  }

  lemma {:induction false} CollectedCountFrame(a: seq<Item>, b: seq<Item>, n: nat)
    requires n <= |a| && n <= |b|
    requires forall k :: 0 <= k < n ==> a[k].collected == b[k].collected
    ensures CollectedCount(a, n) == CollectedCount(b, n)
  {
    if n > 0 {
      CollectedCountFrame(a, b, n - 1);
    }
  }

  /** The collectibles' states, in list order. */
  function Items(cs: seq<Collectible>): (its: seq<Item>)
    reads cs`collected, cs`currentValue
    ensures |its| == |cs|
    ensures forall k {:trigger its[k]} :: 0 <= k < |cs| ==> its[k] == Item(cs[k].collected, cs[k].currentValue)
  {
    if cs == [] then [] else [Item(cs[0].collected, cs[0].currentValue)] + Items(cs[1..])
  }

  /** Which collectibles the player at (px, py) overlaps. */
  function Reaches(cs: seq<Collectible>, overlap: Overlap, px: int, py: int): (t: seq<bool>)
    reads cs`x, cs`y
    ensures |t| == |cs|
    ensures forall k {:trigger t[k]} :: 0 <= k < |cs| ==> t[k] == overlap(px, py, PLAYER_SIZE, cs[k].x, cs[k].y, COLLECTIBLE_SIZE)
  {
    if cs == [] then []
    else [overlap(px, py, PLAYER_SIZE, cs[0].x, cs[0].y, COLLECTIBLE_SIZE)] + Reaches(cs[1..], overlap, px, py)
  }

  /** The collectibles are in the states `its`. */
  ghost predicate Shows(cs: seq<Collectible>, its: seq<Item>)
    reads cs`collected, cs`currentValue
  {
    |its| == |cs| && forall k {:trigger its[k]} :: 0 <= k < |cs| ==> cs[k].collected == its[k].collected && cs[k].currentValue == its[k].value
  }

  function Counters(gc: Session, status: PlayerStatus): Bonus
    reads gc`doublePointsActive, gc`freezeActive, gc`randomDrawn, status`score
  {
    Bonus(status.score, gc.doublePointsActive, gc.freezeActive, gc.randomDrawn)
  }

  // ---------------------------------------------------------------
  // The pass
  // ---------------------------------------------------------------

  /** The player's state a zombie hit changes, with the camera's shake
      timer. */
  datatype Vitals = Vitals(lives: int, invincible: bool, flashes: nat, shake: int)

  function VitalsOf(gc: Session, status: PlayerStatus): Vitals
    reads status`lives, status`invincible, status`flashes, gc.camera`shakeTimer
  {
    Vitals(status.lives, status.invincible, status.flashes, gc.camera.shakeTimer)
  }

  /** A hit that hurts: one life fewer, invincible, one more flash, and a
      full camera shake. */
  function Hurt(v: Vitals): (h: Vitals)
    ensures h.lives == v.lives - 1 && h.invincible && h.flashes == v.flashes + 1 && h.shake == SHAKE_FRAMES
  {
    Vitals(v.lives - 1, true, v.flashes + 1, SHAKE_FRAMES)
  }

  /** One turn of the zombie loop: a zombie out of cooldown that the
      player overlaps (`touch`) gets its cooldown set and, unless the
      player is invincible, costs a life, with invincibility, a flash and
      a camera shake; `dead` says that this hit left the player dead. */
  method HitZombie(gc: Session, status: PlayerStatus, z: Zombie, overlap: Overlap, px: int, py: int, ghost touch: bool)
    returns (dead: bool)
    requires gc.camera.Valid()
    requires touch == (!z.IsInCollisionCooldown() && overlap(px, py, PLAYER_SIZE, z.x, z.y, ZOMBIE_SIZE))
    modifies z`collisionCooldown, status`lives, status`invincible, status`flashes, gc.camera`shakeTimer
    ensures gc.camera.Valid()
    ensures var hurt := touch && !old(status.invincible);
      && z.collisionCooldown == (if touch then COOLDOWN_FRAMES else old(z.collisionCooldown))
      && dead == (hurt && old(status.lives) - 1 <= 0)
      && VitalsOf(gc, status) == if hurt then Hurt(old(VitalsOf(gc, status))) else old(VitalsOf(gc, status))
  {
    dead := false;
    if z.IsInCollisionCooldown() {
      return;
    }
    if overlap(px, py, PLAYER_SIZE, z.GetX(), z.GetY(), ZOMBIE_SIZE) {
      z.TriggerCollisionCooldown();
      if !status.IsInvincible() {
        status.LoseLife();
        status.TriggerInvincibility();
        status.TriggerFlash();
        gc.camera.TriggerShake();
        if status.IsDead() {
          dead := true;
        }
      }
    }
  }

  /** The zombies' cooldowns, in list order. */
  function Cooldowns(zs: seq<Zombie>): (cs: seq<int>)
    reads zs`collisionCooldown
    ensures |cs| == |zs|
    ensures forall k {:trigger cs[k]} :: 0 <= k < |zs| ==> cs[k] == zs[k].collisionCooldown
  {
    if zs == [] then [] else [zs[0].collisionCooldown] + Cooldowns(zs[1..])
  }

  /** The cooldowns once the zombie loop has looked at the zombies before
      index i: the ones touched there are in cooldown, the others keep
      their cooldown `cd0`. */
  ghost predicate CooledBefore(zombies: seq<Zombie>, t: seq<bool>, cd0: seq<int>, i: int)
    reads zombies`collisionCooldown
  {
    && |t| == |zombies| == |cd0| && 0 <= i <= |zombies|
    && forall k :: 0 <= k < |zombies| ==>
         zombies[k].collisionCooldown == if k < i && t[k] then COOLDOWN_FRAMES else cd0[k]
  }

  /** The player's state once the zombie loop has looked at the zombies
      before index i without a fatal hit: the first hit, if it came before
      i, hurt the player (vitals `v0` at the start) unless they were
      invincible. */
  ghost predicate HurtBefore(gc: Session, status: PlayerStatus, f: nat, v0: Vitals, i: int)
    reads status`lives, status`invincible, status`flashes, gc.camera
  {
    && gc.camera.Valid()
    && VitalsOf(gc, status) == (if f < i && !v0.invincible then Hurt(v0) else v0)
    && (f < i && !v0.invincible ==> v0.lives - 1 > 0)
    && (f < i ==> status.invincible)
  }

  /** The touches `t` as computed from the cooldowns `cd0` and corners
      `pos0` the zombies had when the loop started. */
  predicate TouchesFrom(t: seq<bool>, cd0: seq<int>, pos0: seq<(int, int)>, overlap: Overlap, px: int, py: int)
  {
    && |t| == |cd0| == |pos0|
    && forall k :: 0 <= k < |t| ==>
         t[k] == (!(cd0[k] > 0) && overlap(px, py, PLAYER_SIZE, pos0[k].0, pos0[k].1, ZOMBIE_SIZE))
  }

  /** Turn i of the zombie loop: it sets the cooldown of zombie i if
      touched, and either keeps `HurtBefore` to i + 1 or is the first hit
      and leaves the player dead. */
  method HitStep(gc: Session, status: PlayerStatus, zombies: seq<Zombie>, overlap: Overlap, px: int, py: int,
                 i: nat, ghost t: seq<bool>, ghost cd0: seq<int>, ghost pos0: seq<(int, int)>, ghost v0: Vitals)
    returns (dead: bool)
    requires Distinct(zombies) && i < |zombies|
    requires CooledBefore(zombies, t, cd0, i) && HurtBefore(gc, status, FirstHit(t), v0, i)
    requires TouchesFrom(t, cd0, pos0, overlap, px, py) && (zombies[i].x, zombies[i].y) == pos0[i]
    modifies zombies`collisionCooldown, status`lives, status`invincible, status`flashes, gc.camera`shakeTimer
    ensures CooledBefore(zombies, t, cd0, i + 1)
    ensures forall k :: 0 <= k < |zombies| ==> (zombies[k].x, zombies[k].y) == old((zombies[k].x, zombies[k].y))
    ensures !dead ==> HurtBefore(gc, status, FirstHit(t), v0, i + 1)
    ensures dead ==> && FirstHit(t) == i && !v0.invincible && v0.lives - 1 <= 0
                     && gc.camera.Valid() && VitalsOf(gc, status) == Hurt(v0)
  {
    ghost var f := FirstHit(t);
    var z := zombies[i];
    ghost var wasInvincible := status.invincible;
    dead := HitZombie(gc, status, z, overlap, px, py, t[i]);
    if dead {
      assert t[i] && !wasInvincible;
      assert !(f < i);
      assert !(i < f);
    }
    assert forall k :: 0 <= k < |zombies| && k != i ==> zombies[k] != z;
  }

  /** The zombie loop. Zombies in cooldown are skipped; every other zombie
      the player overlaps gets its cooldown set, and the first of them
      costs a life, with invincibility, a flash and a camera shake, unless
      the player is already invincible; later hits in the same pass find
      the player invincible. If that hit leaves the player dead the loop
      stops there and `dead` is true. */
  method HitZombies(gc: Session, status: PlayerStatus, zombies: seq<Zombie>, overlap: Overlap, px: int, py: int)
    returns (dead: bool)
    requires Distinct(zombies)
    requires gc.camera.Valid()
    modifies zombies`collisionCooldown, status`lives, status`invincible, status`flashes, gc.camera`shakeTimer
    ensures gc.camera.Valid()
    ensures var t := old(Touches(zombies, overlap, px, py));
      var f := FirstHit(t);
      var hurt := f < |t| && !old(status.invincible);
      && dead == (hurt && old(status.lives) - 1 <= 0)
      && CooledBefore(zombies, t, old(Cooldowns(zombies)), if dead then f + 1 else |zombies|)
      && VitalsOf(gc, status) == if hurt then Hurt(old(VitalsOf(gc, status))) else old(VitalsOf(gc, status))
  {
    ghost var t := Touches(zombies, overlap, px, py);
    ghost var v0 := VitalsOf(gc, status);
    ghost var cd0 := Cooldowns(zombies);
    ghost var pos0 := Positions(zombies);
    assert TouchesFrom(t, cd0, pos0, overlap, px, py);
    dead := false;
    for i := 0 to |zombies|
      invariant CooledBefore(zombies, t, cd0, i) && HurtBefore(gc, status, FirstHit(t), v0, i)
      invariant forall k :: 0 <= k < |zombies| ==> (zombies[k].x, zombies[k].y) == pos0[k]
    {
      dead := HitStep(gc, status, zombies, overlap, px, py, i, t, cd0, pos0, v0);
      if dead {
        return;
      }
    }
  }

  /** The reset loop after a collection: every uncollected collectible back
      to full value. */
  method ResetRemaining(collectibles: seq<Collectible>, ghost before: seq<Item>)
    requires Distinct(collectibles) && Shows(collectibles, before)
    modifies collectibles`currentValue
    ensures Shows(collectibles, ResetRest(before))
  {
    for i := 0 to |collectibles|
      invariant forall k :: 0 <= k < |collectibles| ==>
                  collectibles[k].currentValue == if k < i && !before[k].collected then MAX_VALUE else before[k].value
    {
      var other := collectibles[i];
      if !other.IsCollected() {
        other.ResetValue();
      }
    }
  }

  /** The scoring and bonus draws after a collection of value v. */
  method Reward(gc: Session, status: PlayerStatus, v: int)
    modifies status`score, gc`doublePointsActive, gc`freezeActive, gc`randomDrawn
    ensures Counters(gc, status) == Award(old(Counters(gc, status)), v, gc.random)
  {
    var earned := v;
    if gc.doublePointsActive {
      earned := earned * 2;
    }
    status.AddScore(earned);
    if gc.random(gc.randomDrawn) < BONUS_CHANCE {
      gc.freezeActive := true;
    }
    if gc.random(gc.randomDrawn + 1) < BONUS_CHANCE {
      gc.doublePointsActive := true;
    }
    gc.randomDrawn := gc.randomDrawn + 2;
  }

  /** One turn of the collecting loop, specified by `Visit`. */
  method CollectOne(gc: Session, status: PlayerStatus, collectibles: seq<Collectible>, ghost its: seq<Item>, i: nat,
                    overlap: Overlap, px: int, py: int, ghost touching: bool)
    requires Distinct(collectibles) && i < |collectibles| && Shows(collectibles, its)
    requires touching == overlap(px, py, PLAYER_SIZE, collectibles[i].x, collectibles[i].y, COLLECTIBLE_SIZE)
    modifies collectibles`collected, collectibles`currentValue, status`score, gc`doublePointsActive, gc`freezeActive, gc`randomDrawn
    ensures var r := Visit(its, old(Counters(gc, status)), i, touching, gc.random);
      Shows(collectibles, r.0) && Counters(gc, status) == r.1
  {
    var c := collectibles[i];
    if !c.IsCollected() && overlap(px, py, PLAYER_SIZE, c.GetX(), c.GetY(), COLLECTIBLE_SIZE) {
      var earned := c.Collect();
      Reward(gc, status, earned);
      ResetRemaining(collectibles, its[i := Item(true, its[i].value)]);
    }
  }

  /** Turn i of the collecting loop with its bookkeeping: the items move
      on from `cur` to `next` as `Visit` says, what is left of the loop
      still ends where it did, and `count'` counts the collected items
      among the first i + 1. */
  method CollectStep(gc: Session, status: PlayerStatus, collectibles: seq<Collectible>, overlap: Overlap, px: int, py: int,
                     i: nat, ghost t: seq<bool>, ghost cur: seq<Item>, count: int)
    returns (ghost next: seq<Item>, count': int)
    requires Distinct(collectibles) && i < |collectibles| && Shows(collectibles, cur)
    requires Reaches(collectibles, overlap, px, py) == t
    requires count == CollectedCount(cur, i)
    modifies collectibles`collected, collectibles`currentValue, status`score, gc`doublePointsActive, gc`freezeActive, gc`randomDrawn
    ensures Shows(collectibles, next) && Reaches(collectibles, overlap, px, py) == t
    ensures VisitFrom(next, Counters(gc, status), t, i + 1, gc.random) == VisitFrom(cur, old(Counters(gc, status)), t, i, gc.random)
    ensures count' == CollectedCount(next, i + 1)
  {
    ghost var b := Counters(gc, status);
    CollectOne(gc, status, collectibles, cur, i, overlap, px, py, t[i]);
    VisitFrame(cur, b, i, t[i], gc.random);
    next := Visit(cur, b, i, t[i], gc.random).0;
    CollectedCountFrame(cur, next, i);
    count' := count;
    if collectibles[i].IsCollected() {
      count' := count + 1;
    }
  }

  /** The collecting loop, specified by `VisitFrom`; `count` is the number
      of collectibles collected after it. */
  method CollectItems(gc: Session, status: PlayerStatus, collectibles: seq<Collectible>, overlap: Overlap, px: int, py: int)
    returns (count: int)
    requires Distinct(collectibles)
    modifies collectibles`collected, collectibles`currentValue, status`score, gc`doublePointsActive, gc`freezeActive, gc`randomDrawn
    ensures var r := VisitFrom(old(Items(collectibles)), old(Counters(gc, status)), old(Reaches(collectibles, overlap, px, py)), 0, gc.random);
      && Shows(collectibles, r.0) && Counters(gc, status) == r.1
      && count == CollectedCount(r.0, |collectibles|)
  {
    ghost var t := Reaches(collectibles, overlap, px, py);
    ghost var cur := Items(collectibles);
    ghost var goal := VisitFrom(cur, Counters(gc, status), t, 0, gc.random);
    count := 0;
    for i := 0 to |collectibles|
      invariant Shows(collectibles, cur) && Reaches(collectibles, overlap, px, py) == t
      invariant VisitFrom(cur, Counters(gc, status), t, i, gc.random) == goal
      invariant count == CollectedCount(cur, i)
    {
      cur, count := CollectStep(gc, status, collectibles, overlap, px, py, i, t, cur, count);
    }
  }

  /** The exit check applies: the exit is unlocked and the player's
      centre tile is an exit. */
  predicate AtOpenExit(gc: Session, player: Player, maze: Maze)
    requires maze.Valid()
    reads gc, player
  {
    var tile := CentreTile(player);
    gc.exitUnlocked && maze.IsExit(tile.0, tile.1)
  }

  /** The outcome of the exit check from a session whose current level,
      carry-over score, load log, transition flag, end log and mode were
      `level`, `carry`, `loads`, `moving`, `ends` and `mode`. */
  ghost predicate ExitChecked(gc: Session, status: PlayerStatus, reached: bool, level: int, carry: int,
                              loads: seq<int>, moving: bool, ends: seq<GameMode>, mode: GameMode)
    reads gc, gc.gsm, status
  {
    var advance := reached && level < gc.maxLevel;
    && (advance ==>
          && gc.carryoverScore == status.score && gc.currentLevel == level + 1
          && gc.levelLoads == loads + [level + 1] && gc.inTransition
          && gc.gsm.mode == Transition && gc.endings == ends)
    && (!advance ==>
          && gc.endings == (if reached then ends + [Win] else ends)
          && gc.carryoverScore == carry && gc.currentLevel == level
          && gc.levelLoads == loads && gc.inTransition == moving && gc.gsm.mode == mode)
  }

  /** The exit check: with the exit unlocked and the player's centre tile
      an exit, a level below the last one records the carry-over score,
      loads the next level and enters the transition; the last level ends
      the game with a win. Otherwise nothing changes. */
  method TakeExit(gc: Session, status: PlayerStatus, player: Player, maze: Maze)
    requires maze.Valid()
    modifies gc`carryoverScore, gc`currentLevel, gc`levelLoads, gc`inTransition, gc`endings, gc.gsm`mode
    ensures ExitChecked(gc, status, old(AtOpenExit(gc, player, maze)), old(gc.currentLevel), old(gc.carryoverScore),
                        old(gc.levelLoads), old(gc.inTransition), old(gc.endings), old(gc.gsm.mode))
  {
    var row := TileIndex(player.GetY() + HALF * (PLAYER_SIZE / 2));
    var col := TileIndex(player.GetX() + HALF * (PLAYER_SIZE / 2));
    if gc.exitUnlocked && maze.IsExit(row, col) {
      if gc.currentLevel < gc.maxLevel {
        gc.carryoverScore := status.GetScore();
        gc.currentLevel := gc.currentLevel + 1;
        gc.LoadLevel(gc.currentLevel);
        gc.inTransition := true;
        gc.gsm.SetMode(Transition);
        return;
      }
      gc.HandleGameEnd(Win);
    }
  }

  /** Collecting, then unlocking the exit once every collectible is
      collected (an empty list included; it is never locked here). */
  method CollectAndUnlock(gc: Session, status: PlayerStatus, collectibles: seq<Collectible>, overlap: Overlap, px: int, py: int)
    requires Distinct(collectibles)
    modifies collectibles`collected, collectibles`currentValue, status`score
    modifies gc`doublePointsActive, gc`freezeActive, gc`randomDrawn, gc`exitUnlocked
    ensures var r := VisitFrom(old(Items(collectibles)), old(Counters(gc, status)), old(Reaches(collectibles, overlap, px, py)), 0, gc.random);
      && Shows(collectibles, r.0) && Counters(gc, status) == r.1
      && gc.exitUnlocked == (old(gc.exitUnlocked) || forall k :: 0 <= k < |collectibles| ==> r.0[k].collected)
  {
    ghost var r := VisitFrom(Items(collectibles), Counters(gc, status), Reaches(collectibles, overlap, px, py), 0, gc.random);
    var count := CollectItems(gc, status, collectibles, overlap, px, py);
    CollectedCountAll(r.0, |collectibles|);
    if count == |collectibles| {
      gc.exitUnlocked := true;
    }
  }

  /** The pass after the zombie loop when the player survived it:
      collecting and unlocking, then the exit check. */
  method FinishPass(gc: Session, player: Player, status: PlayerStatus, collectibles: seq<Collectible>,
                    maze: Maze, overlap: Overlap)
    requires maze.Valid() && Distinct(collectibles)
    modifies collectibles`collected, collectibles`currentValue, status`score
    modifies gc`doublePointsActive, gc`freezeActive, gc`randomDrawn, gc`exitUnlocked
    modifies gc`carryoverScore, gc`currentLevel, gc`levelLoads, gc`inTransition, gc`endings, gc.gsm`mode
    ensures var r := VisitFrom(old(Items(collectibles)), old(Counters(gc, status)),
                               old(Reaches(collectibles, overlap, player.x, player.y)), 0, gc.random);
      && Shows(collectibles, r.0) && Counters(gc, status) == r.1
      && gc.exitUnlocked == (old(gc.exitUnlocked) || forall k :: 0 <= k < |collectibles| ==> r.0[k].collected)
    ensures ExitChecked(gc, status, gc.exitUnlocked && maze.IsExit(CentreTile(player).0, CentreTile(player).1),
                        old(gc.currentLevel), old(gc.carryoverScore), old(gc.levelLoads), old(gc.inTransition),
                        old(gc.endings), old(gc.gsm.mode))
  {
    CollectAndUnlock(gc, status, collectibles, overlap, player.GetX(), player.GetY());
    TakeExit(gc, status, player, maze);
  }

  /** What the rest of the pass reads of the state left by the zombie
      loop: the collectibles, the counters, the overlaps, the lock and the
      state the exit check may change. */
  datatype Before = Before(its: seq<Item>, b: Bonus, t: seq<bool>, unlocked: bool, level: int, carry: int,
                           loads: seq<int>, moving: bool, ends: seq<GameMode>, mode: GameMode)

  function BeforeOf(gc: Session, status: PlayerStatus, player: Player, collectibles: seq<Collectible>, overlap: Overlap): Before
    reads collectibles`collected, collectibles`currentValue, collectibles`x, collectibles`y, player`x, player`y
    reads gc`doublePointsActive, gc`freezeActive, gc`randomDrawn, status`score, gc`exitUnlocked
    reads gc`currentLevel, gc`carryoverScore, gc`levelLoads, gc`inTransition, gc`endings, gc.gsm`mode
  {
    Before(Items(collectibles), Counters(gc, status), Reaches(collectibles, overlap, player.x, player.y),
           gc.exitUnlocked, gc.currentLevel, gc.carryoverScore, gc.levelLoads, gc.inTransition, gc.endings, gc.gsm.mode)
  }

  /** The game is over and the rest of the pass skipped: GAME_OVER is
      recorded, and the collectibles, the score, the bonus flags, the
      roll counter, the lock, the level, the carry-over score, the
      transition flag and the mode are as they were in `s`. */
  ghost predicate EndedOver(gc: Session, status: PlayerStatus, collectibles: seq<Collectible>, s: Before)
    reads gc, gc.gsm, status, collectibles
  {
    && gc.endings == s.ends + [GameOver]
    && Shows(collectibles, s.its) && Counters(gc, status) == s.b
    && gc.exitUnlocked == s.unlocked && gc.currentLevel == s.level && gc.levelLoads == s.loads
    && gc.carryoverScore == s.carry && gc.inTransition == s.moving && gc.gsm.mode == s.mode
  }

  /** The rest of the pass has run from `s`: the collectibles, the
      score, the bonus flags and the roll counter are those of the
      collecting specification, the exit is
      unlocked once every collectible is collected, and the exit check
      has been applied to the unlocked state and the player's centre
      tile. */
  ghost predicate Finished(gc: Session, status: PlayerStatus, player: Player, collectibles: seq<Collectible>,
                           maze: Maze, s: Before)
    reads gc, gc.gsm, status, player, collectibles
  {
    && maze.Valid() && |s.t| == |s.its|
    && var r := VisitFrom(s.its, s.b, s.t, 0, gc.random);
       && Shows(collectibles, r.0) && Counters(gc, status) == r.1
       && gc.exitUnlocked == (s.unlocked || forall k :: 0 <= k < |collectibles| ==> r.0[k].collected)
       && ExitChecked(gc, status, gc.exitUnlocked && maze.IsExit(CentreTile(player).0, CentreTile(player).1),
                      s.level, s.carry, s.loads, s.moving, s.ends, s.mode)
  }

  /** The pass after the zombie loop: a player it left dead ends the game
      over and nothing else changes; otherwise the rest of the pass runs. */
  method AfterHits(gc: Session, player: Player, status: PlayerStatus, collectibles: seq<Collectible>,
                   maze: Maze, overlap: Overlap, dead: bool)
    requires maze.Valid() && Distinct(collectibles)
    modifies collectibles`collected, collectibles`currentValue, status`score
    modifies gc`doublePointsActive, gc`freezeActive, gc`randomDrawn, gc`exitUnlocked
    modifies gc`carryoverScore, gc`currentLevel, gc`levelLoads, gc`inTransition, gc`endings, gc.gsm`mode
    ensures dead ==> EndedOver(gc, status, collectibles, old(BeforeOf(gc, status, player, collectibles, overlap)))
    ensures !dead ==> Finished(gc, status, player, collectibles, maze, old(BeforeOf(gc, status, player, collectibles, overlap)))
  {
    if dead {
      gc.HandleGameEnd(GameOver);
      return;
    }
    FinishPass(gc, player, status, collectibles, maze, overlap);
  }

  /** The zombie loop's effect on the lives: at most one is lost, exactly
      when the player is not invincible and some zombie out of cooldown
      touches it, and `dead` reports a loss that leaves none. */
  method LoseAtMostOne(gc: Session, status: PlayerStatus, zombies: seq<Zombie>, overlap: Overlap, px: int, py: int)
    returns (dead: bool)
    requires gc.camera.Valid() && Distinct(zombies)
    modifies zombies`collisionCooldown, status`lives, status`invincible, status`flashes, gc.camera`shakeTimer
    ensures old(status.lives) - 1 <= status.lives <= old(status.lives)
    ensures status.lives < old(status.lives) <==>
              !old(status.invincible) && FirstHit(old(Touches(zombies, overlap, px, py))) < |zombies|
    ensures dead <==> status.lives < old(status.lives) && status.lives <= 0
  {
    dead := HitZombies(gc, status, zombies, overlap, px, py);
  }

  /** The zombie loop as the rest of the pass sees it: at most one life
      is lost, `dead` reports a loss that leaves none, and nothing the
      rest of the pass reads changes. */
  method ZombiePhase(gc: Session, player: Player, status: PlayerStatus, zombies: seq<Zombie>,
                     collectibles: seq<Collectible>, overlap: Overlap) returns (dead: bool)
    requires gc.camera.Valid() && Distinct(zombies)
    modifies zombies`collisionCooldown, status`lives, status`invincible, status`flashes, gc.camera`shakeTimer
    ensures old(status.lives) - 1 <= status.lives <= old(status.lives)
    ensures status.lives < old(status.lives) <==>
              !old(status.invincible) && FirstHit(old(Touches(zombies, overlap, player.x, player.y))) < |zombies|
    ensures dead <==> status.lives < old(status.lives) && status.lives <= 0
    ensures BeforeOf(gc, status, player, collectibles, overlap) == old(BeforeOf(gc, status, player, collectibles, overlap))
  {
    dead := LoseAtMostOne(gc, status, zombies, overlap, player.GetX(), player.GetY());
  }

  /** One collision pass: the zombie loop, then, if the player survived
      it, the rest of the pass; a hit that leaves the player dead ends the
      game over and skips the rest. */
  method Update(gc: Session, player: Player, status: PlayerStatus, zombies: seq<Zombie>,
                collectibles: seq<Collectible>, maze: Maze, overlap: Overlap)
    requires maze.Valid() && gc.camera.Valid()
    requires Distinct(zombies) && Distinct(collectibles)
    modifies zombies`collisionCooldown, collectibles`collected, collectibles`currentValue
    modifies status`lives, status`invincible, status`flashes, status`score, gc.camera`shakeTimer
    modifies gc`doublePointsActive, gc`freezeActive, gc`randomDrawn, gc`exitUnlocked
    modifies gc`carryoverScore, gc`currentLevel, gc`levelLoads, gc`inTransition, gc`endings, gc.gsm`mode
    ensures old(status.lives) - 1 <= status.lives <= old(status.lives)
    ensures status.lives < old(status.lives) <==>
              !old(status.invincible) && FirstHit(old(Touches(zombies, overlap, player.x, player.y))) < |zombies|
    ensures status.lives < old(status.lives) && status.lives <= 0 ==>
              EndedOver(gc, status, collectibles, old(BeforeOf(gc, status, player, collectibles, overlap)))
    ensures !(status.lives < old(status.lives) && status.lives <= 0) ==>
              Finished(gc, status, player, collectibles, maze, old(BeforeOf(gc, status, player, collectibles, overlap)))
  {
    var dead := ZombiePhase(gc, player, status, zombies, collectibles, overlap);
    AfterHits(gc, player, status, collectibles, maze, overlap, dead);
  }
}
