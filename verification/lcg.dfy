/**
 * The linear congruential generator that both estimators use: the state
 * update of the portable `rand()` example of ISO C11 section 7.22.2.2 on a
 * 32-bit `unsigned int`, and the draw of bits [8, 32) of the new state as a
 * fraction in [0, 1).
 */
module Lcg {
  import opened Bits

  const Multiplier: int := 1103515245
  const Increment: int := 12345

  /** 2^24: the draw is a 24-bit integer, and the fraction is that integer over 2^24. */
  const DrawRange: int := 0x100_0000

  /** One step of the recurrence, in `unsigned int` arithmetic. */
  function Next(s: u32): u32
  {
    (s * Multiplier + Increment) % U32Modulus
  }

  /** The state after k steps from s. */
  function Iterate(s: u32, k: nat): u32
  {
    if k == 0 then s else Next(Iterate(s, k - 1))
  }

  /**
   * `(state >> 8) & 0x00FFFFFF`: the right shift by 8 is division by 2^8,
   * the mask keeps the low 24 bits.
   */
  function Draw(s: u32): (a: nat)
    ensures a < DrawRange
    ensures a * 256 <= s < (a + 1) * 256
  {
    (s / 256) % DrawRange
  }

  /** `(double)a / (double)0x01000000`, exact because a has at most 24 significant bits. */
  function Fraction(a: nat): real
  {
    a as real / DrawRange as real
  }

  /** Every draw, seen as a fraction, lies in [0, 1). */
  lemma FractionInUnitInterval(s: u32)
    ensures 0.0 <= Fraction(Draw(s)) < 1.0
  {
  }

  /** Stepping k and then m times is stepping k + m times: a stream is a function of its state alone. */
  lemma {:induction false} IterateAdd(s: u32, k: nat, m: nat)
    ensures Iterate(Iterate(s, k), m) == Iterate(s, k + m)
  {
    if m > 0 {
      IterateAdd(s, k, m - 1);
    }
  }

  /**
   * The generator state that `lcg_rand01` updates through its pointer
   * argument. Each run or worker owns its own instance.
   */
  class Generator {
    var state: u32

    constructor (seed: u32)
      ensures state == seed
    {
      state := seed;
    }

    /**
     * `lcg_rand01(&state)`: advance the state by one step and return the
     * new state's 24-bit draw as a fraction in [0, 1).
     */
    method Rand01() returns (x: real)
      modifies this
      ensures state == Next(old(state))
      ensures x == Fraction(Draw(state))
      ensures 0.0 <= x < 1.0
    {
      state := (state * Multiplier + Increment) % U32Modulus;
      var a := (state / 256) % DrawRange;
      x := a as real / DrawRange as real;
      FractionInUnitInterval(state);
    }
  }
}
