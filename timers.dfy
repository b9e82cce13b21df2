/** Frame countdowns: the zombie collision cooldown and the camera shake
    timer both step a counter down by one per update, stopping at zero. */
module Timers {
  import opened JavaNum

  /** One update of a countdown: `if (t > 0) t--`. */
  function Countdown(t: int): int
  {
    if t > 0 then t - 1 else t
  }

  /** `n` successive updates of a countdown. */
  function CountdownAfter(t: int, n: nat): int
    decreases n
  {
    if n == 0 then t else CountdownAfter(Countdown(t), n - 1)
  }

  /** A non-negative countdown never goes below zero and loses exactly one
      per update while positive: after `n` updates it is max(0, t - n). */
  lemma {:induction false} CountdownAfterIs(t: int, n: nat)
    requires t >= 0
    ensures CountdownAfter(t, n) == Max(0, t - n)
    ensures CountdownAfter(t, n) >= 0
    decreases n
  {
    if n > 0 {
      CountdownAfterIs(Countdown(t), n - 1);
    }
  }
}
