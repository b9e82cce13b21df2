/** The camera's screen shake: a frame countdown and a random offset of
    at most 3 pixels per axis while it runs. Applying the offset to the
    drawing surface is not part of this model. */
module Cameras {
  import opened JavaNum
  import opened Timers

  /** Frames one shake lasts. */
  const SHAKE_FRAMES: int := 8
  /** Largest offset, in pixels, on each axis. */
  const SHAKE_STRENGTH: int := 3

  /** An offset drawn from `raw`: `nextInt(2 * 3 + 1) - 3`. */
  function ShakeOffset(raw: nat): int
  {
    NextInt(raw, SHAKE_STRENGTH * 2 + 1) - SHAKE_STRENGTH
  }

  /** Every offset lies in [-3, 3], and each value there can be drawn. */
  lemma ShakeOffsetRange(raw: nat, v: int)
    ensures -SHAKE_STRENGTH <= ShakeOffset(raw) <= SHAKE_STRENGTH
    ensures -SHAKE_STRENGTH <= v <= SHAKE_STRENGTH ==> ShakeOffset((v + SHAKE_STRENGTH) as nat) == v
  {
  }

  /** A shake runs for exactly `SHAKE_FRAMES` updates: after a trigger and
      n updates with no trigger in between, the timer is 8 - n until it
      reaches 0 and then stays there. */
  lemma ShakeRunsOut(n: nat)
    ensures CountdownAfter(SHAKE_FRAMES, n) == Max(0, SHAKE_FRAMES - n)
    ensures n >= SHAKE_FRAMES ==> CountdownAfter(SHAKE_FRAMES, n) == 0
    ensures n < SHAKE_FRAMES ==> CountdownAfter(SHAKE_FRAMES, n) > 0
  {
    CountdownAfterIs(SHAKE_FRAMES, n);
  }

  class Camera {
    var shakeTimer: int
    /** The camera's own `Random`, as an oracle stream; `drawn` counts the
        values taken. */
    const stream: nat -> nat
    var drawn: nat
    var offsetX: int
    var offsetY: int

    /** The timer is never negative and never above a full shake, and the
        offsets are within the shake strength. */
    ghost predicate Valid()
      reads this
    {
      && 0 <= shakeTimer <= SHAKE_FRAMES
      && -SHAKE_STRENGTH <= offsetX <= SHAKE_STRENGTH
      && -SHAKE_STRENGTH <= offsetY <= SHAKE_STRENGTH
    }

    constructor (stream: nat -> nat)
      ensures Valid() && this.stream == stream && drawn == 0
      ensures shakeTimer == 0 && offsetX == 0 && offsetY == 0
    {
      shakeTimer := 0;
      this.stream := stream;
      drawn := 0;
      offsetX := 0;
      offsetY := 0;
    }

    method TriggerShake()
      requires Valid()
      modifies this`shakeTimer
      ensures Valid() && shakeTimer == SHAKE_FRAMES
    {
      shakeTimer := SHAKE_FRAMES;
    }

    /** One frame: while the timer runs it counts down and two fresh
        offsets are drawn; once it is 0 both offsets are 0. */
    method Update()
      requires Valid()
      modifies this`shakeTimer, this`drawn, this`offsetX, this`offsetY
      ensures Valid()
      ensures shakeTimer == Countdown(old(shakeTimer))
      ensures old(shakeTimer) > 0 ==>
                && drawn == old(drawn) + 2
                && offsetX == ShakeOffset(stream(old(drawn)))
                && offsetY == ShakeOffset(stream(old(drawn) + 1))
      ensures old(shakeTimer) == 0 ==> drawn == old(drawn) && offsetX == 0 && offsetY == 0
    {
      if shakeTimer > 0 {
        shakeTimer := shakeTimer - 1;
        ShakeOffsetRange(stream(drawn), 0);
        ShakeOffsetRange(stream(drawn + 1), 0);
        offsetX := NextInt(stream(drawn), SHAKE_STRENGTH * 2 + 1) - SHAKE_STRENGTH;
        offsetY := NextInt(stream(drawn + 1), SHAKE_STRENGTH * 2 + 1) - SHAKE_STRENGTH;
        drawn := drawn + 2;
      } else {
        offsetX := 0;
        offsetY := 0;
      }
    }
  }
}
