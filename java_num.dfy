/** Java's integer conversions and divisions, written out because Dafny's
    `/` and `.Floor` round toward negative infinity while Java truncates
    toward zero. */
module JavaNum {

  /** Java's `int`: 32-bit two's complement. */
  newtype int32 = x: int | -0x8000_0000 <= x < 0x8000_0000

  /** Java's `a / d` on ints for a positive divisor: the quotient is
      truncated toward zero, so a negative dividend above `-d` gives 0. */
  function IntDiv(a: int, d: int): (q: int)
    requires d > 0
    ensures a >= 0 ==> 0 <= q && d * q <= a < d * q + d
    ensures a < 0 ==> q <= 0 && d * q - d < a <= d * q
  {
    if a >= 0 then
      assert d * (a / d) + a % d == a;
      a / d
    else
      var n := -a;
      assert d * (n / d) + n % d == n;
      -(n / d)
  }

  /** Positions are doubles whose values are always multiples of one
      half (every constant the game adds to them is), so they are held
      exactly as integers counting half-pixels. `(int) p` of the double
      p = h / 2 truncates toward zero: */
  function HalfToInt(h: int): (n: int)
    ensures h >= 0 ==> 0 <= n && 2 * n <= h < 2 * n + 2
    ensures h < 0 ==> n <= 0 && 2 * n - 2 < h <= 2 * n
  {
    IntDiv(h, 2)
  }

  /** Java's `Math.abs` on ints (the `Integer.MIN_VALUE` corner is not
      modelled: arguments here are small). */
  function Abs(a: int): (r: int)
    ensures r >= 0 && (r == a || r == -a)
  {
    if a < 0 then -a else a
  }

  function Max(a: int, b: int): int { if a < b then b else a }

  /** The generators' outputs are modelled as an oracle: an unconstrained
      stream of naturals. `nextInt(bound)` yields a value below `bound`. */
  function NextInt(raw: nat, bound: int): (r: nat)
    requires bound > 0
    ensures r < bound
  {
    raw % bound
  }

  /** `nextBoolean()` of the same oracle. */
  function NextBoolean(raw: nat): bool
  {
    raw % 2 == 0
  }
}
