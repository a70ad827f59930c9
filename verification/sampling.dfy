/**
 * The sampling loop that both estimators run: draw two fractions per
 * sample and count the samples whose point falls in the quarter circle.
 */
module Sampling {
  import opened Bits
  import opened Lcg

  /** 2^48 = (2^24)^2: the integer image of the radius 1.0. */
  const RadiusSquared: int := 0x1_0000_0000_0000

  /** A point with coordinates a / 2^24 and b / 2^24 lies in the closed quarter circle. */
  predicate InQuarterCircle(a: int, b: int)
  {
    a * a + b * b <= RadiusSquared
  }

  /**
   * The test `x * x + y * y <= 1.0` on the two fractions is decided exactly
   * by the integer test on the draws.
   */
  lemma InQuarterCircleExact(a: nat, b: nat)
    requires a < DrawRange && b < DrawRange
    ensures Fraction(a) * Fraction(a) + Fraction(b) * Fraction(b) <= 1.0 <==> InQuarterCircle(a, b)
  {
  }

  /** The sample drawn from state s, counted or not: it consumes the next two states. */
  predicate Hit(s: u32)
  {
    InQuarterCircle(Draw(Next(s)), Draw(Next(Next(s))))
  }

  /**
   * The inside-count of n samples drawn from a generator in state s; a
   * non-positive n draws nothing.
   */
  function Inside(s: u32, n: int): (r: nat)
    ensures r <= if n <= 0 then 0 else n
    decreases n
  {
    if n <= 0 then 0
    else (if Hit(s) then 1 else 0) + Inside(Next(Next(s)), n - 1)
  }

  /**
   * A stream of samples depends only on its generator state: m + k samples
   * from seed count as m samples from seed followed by k samples from the
   * state reached after those m.
   */
  lemma {:induction false} InsideSplit(seed: u32, m: nat, k: nat)
    ensures Inside(seed, m + k) == Inside(seed, m) + Inside(Iterate(seed, 2 * m), k)
    decreases m
  {
    if m > 0 {
      var s := Next(Next(seed));
      var h := if Hit(seed) then 1 else 0;
      assert Iterate(seed, 1) == Next(seed);
      assert Iterate(seed, 2) == s;
      IterateAdd(seed, 2, 2 * (m - 1));
      calc {
        Inside(seed, m + k);
        h + Inside(s, m - 1 + k);
        { InsideSplit(s, m - 1, k); }
        h + Inside(s, m - 1) + Inside(Iterate(s, 2 * (m - 1)), k);
        Inside(seed, m) + Inside(Iterate(s, 2 * (m - 1)), k);
        Inside(seed, m) + Inside(Iterate(seed, 2 * m), k);
      }
    } else {
      assert Inside(seed, m) == 0 && Iterate(seed, 2 * m) == seed;
    }
  }

  /**
   * The body of one iteration of the counting loop: two calls of
   * `lcg_rand01` on the same generator and the double comparison
   * `x * x + y * y <= 1.0`.
   */
  method SamplePoint(g: Generator) returns (hit: bool)
    modifies g
    ensures g.state == Next(Next(old(g.state)))
    ensures hit == Hit(old(g.state))
  {
    var x := g.Rand01();
    var y := g.Rand01();
    InQuarterCircleExact(Draw(Next(old(g.state))), Draw(g.state));
    hit := x * x + y * y <= 1.0;
  }

  /**
   * The counting loop of `estimate_pi_sequential` and of `worker`: n
   * iterations on a generator seeded with seed, the inside-count
   * incremented for each point in the quarter circle. Returns the count and
   * the generator's final state.
   */
  method SampleLoop(n: i64, seed: u32) returns (inside: i64, state: u32)
    ensures inside == Inside(seed, n)
    ensures 0 <= inside <= if n <= 0 then 0 else n
    ensures state == Iterate(seed, if n <= 0 then 0 else 2 * n)
  {
    var g := new Generator(seed);
    inside := 0;
    var i: i64 := 0;
    while i < n
      invariant 0 <= i && (n <= 0 ==> i == 0) && (n > 0 ==> i <= n)
      invariant 0 <= inside <= i
      invariant inside + Inside(g.state, n - i) == Inside(seed, n)
      invariant g.state == Iterate(seed, 2 * i)
    {
      var hit := SamplePoint(g);
      if hit {
        inside := inside + 1;
      }
      i := i + 1;
    }
    state := g.state;
  }
}
