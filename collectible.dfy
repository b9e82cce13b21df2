/** A collectible: an entity (a box with a position and a fixed size)
    whose score value decays by 2 per update from 1000 until it is
    collected. The abstract `Entity` base class is folded in here, since
    it is the only entity of the simulation that extends it. */
module Collectibles {
  import opened JavaNum

  /** Side of a collectible's box. */
  const COLLECTIBLE_SIZE: int := 16
  /** The value a collectible starts at and is reset to. */
  const MAX_VALUE: int := 1000
  /** Value lost per update while uncollected. */
  const DECAY_RATE: int := 2

  /** One `updateValue`: an uncollected collectible with a positive value
      loses `DECAY_RATE`, stopping at zero; otherwise nothing changes. */
  function Decay(collected: bool, value: int): int
  {
    if !collected && value > 0 then
      var v := value - DECAY_RATE;
      if v < 0 then 0 else v
    else value
  }

  /** `n` successive updates of an uncollected collectible. */
  function DecayAfter(value: int, n: nat): int
    decreases n
  {
    if n == 0 then value else DecayAfter(Decay(false, value), n - 1)
  }

  /** One update subtracts 2 floored at 0 while uncollected and positive,
      and changes nothing otherwise; either way a value in [0, 1000] stays
      there. */
  lemma DecayMeaning(collected: bool, value: int)
    ensures !collected && value > 0 ==> Decay(collected, value) == Max(0, value - DECAY_RATE)
    ensures collected || value <= 0 ==> Decay(collected, value) == value
    ensures 0 <= value <= MAX_VALUE ==> 0 <= Decay(collected, value) <= value
  {
  }

  /** From a value v >= 0, n updates of an uncollected collectible leave
      max(0, v - 2n). */
  lemma {:induction false} DecayAfterIs(value: int, n: nat)
    requires value >= 0
    ensures DecayAfter(value, n) == Max(0, value - DECAY_RATE * n)
    decreases n
  {
    if n > 0 {
      DecayAfterIs(Decay(false, value), n - 1);
    }
  }

  /** From full value: 800 after 100 updates, and 0 from the 500th on. */
  lemma DecayFromFull(n: nat)
    ensures DecayAfter(MAX_VALUE, 100) == 800
    ensures n >= 500 ==> DecayAfter(MAX_VALUE, n) == 0
  {
    DecayAfterIs(MAX_VALUE, 100);
    DecayAfterIs(MAX_VALUE, n);
  }

  class Collectible {
    /** The entity part: top-left corner in half-pixels and the box side,
        which a collectible fixes at construction. */
    var x: int
    var y: int
    const size: int
    var collected: bool
    var currentValue: int

    /** The value lies in [0, 1000]. */
    ghost predicate Valid()
      reads this
    {
      0 <= currentValue <= MAX_VALUE
    }

    /** A new collectible sits at (x, y), uncollected, at full value. */
    constructor (x: int, y: int)
      ensures Valid()
      ensures this.x == x && this.y == y && size == COLLECTIBLE_SIZE
      ensures !collected && currentValue == MAX_VALUE
    {
      size := COLLECTIBLE_SIZE;
      this.x := x;
      this.y := y;
      collected := false;
      currentValue := MAX_VALUE;
    }

    function GetX(): int reads this`x { x }

    function GetY(): int reads this`y { y }

    function GetSize(): int { size }

    /** Moves the box to (x, y); the size and the value are untouched. */
    method SetPosition(x: int, y: int)
      modifies this`x, this`y
      ensures this.x == x && this.y == y
    {
      this.x := x;
      this.y := y;
    }

    /** One frame of decay. */
    method UpdateValue()
      modifies this`currentValue
      ensures currentValue == Decay(collected, old(currentValue))
      ensures old(Valid()) ==> Valid() && currentValue <= old(currentValue)
    {
      DecayMeaning(collected, currentValue);
      if !collected && currentValue > 0 {
        currentValue := currentValue - DECAY_RATE;
        if currentValue < 0 {
          currentValue := 0;
        }
      }
    }

    /** Marks the collectible collected and returns its current value,
        which it leaves as it is. A second call returns the same value
        again: the method does not guard itself. */
    method Collect() returns (v: int)
      modifies this`collected
      ensures collected && v == currentValue
    {
      collected := true;
      return currentValue;
    }

    /** Restores full value, whether or not the collectible is collected. */
    method ResetValue()
      modifies this`currentValue
      ensures currentValue == MAX_VALUE && Valid()
    {
      currentValue := MAX_VALUE;
    }

    predicate IsCollected() reads this`collected { collected }

    function GetValue(): int reads this`currentValue { currentValue }
  }
}
