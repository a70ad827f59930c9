/**
 * The sequential estimator: one generator seeded from the clock, one
 * counting loop over all samples.
 */
module SeqPi {
  import opened Bits
  import opened Lcg
  import opened Sampling
  import opened Optional

  /** The number of samples used when none is given on the command line. */
  const DefaultSamples: i64 := 1000000

  /** What a run ends with: an exit status, or the sample count and inside-count behind the printed estimate. */
  datatype Outcome =
    | Exit(status: int)
    | Estimate(numSamples: i64, inside: i64)

  /**
   * `estimate_pi_sequential` up to its final floating-point division:
   * seeds the generator with `(unsigned int)time(NULL)` (the reading is
   * the parameter now) and runs the counting loop. Returns the inside-count
   * and the generator's final state.
   */
  method EstimatePiSequential(numSamples: i64, now: i64) returns (inside: i64, state: u32)
    ensures inside == Inside(ToU32(now), numSamples)
    ensures 0 <= inside <= if numSamples <= 0 then 0 else numSamples
    ensures state == Iterate(ToU32(now), if numSamples <= 0 then 0 else 2 * numSamples)
  {
    var seed := ToU32(now);
    inside, state := SampleLoop(numSamples, seed);
  }

  /**
   * `main`: arg is the value `atoll` parsed from the first argument, if
   * one was given; now is the clock reading taken inside the estimator.
   */
  method RunSequential(arg: Option<i64>, now: i64) returns (r: Outcome)
    ensures arg.Some? && arg.value <= 0 <==> r == Exit(1)
    ensures r.Estimate? ==> r.numSamples == (if arg.Some? then arg.value else DefaultSamples)
    ensures r.Estimate? ==> r.inside == Inside(ToU32(now), r.numSamples)
    ensures r.Estimate? ==> 0 <= r.inside <= r.numSamples
  {
    var numSamples := DefaultSamples;
    if arg.Some? {
      numSamples := arg.value;
      if numSamples <= 0 {
        return Exit(1);
      }
    }
    var inside, _ := EstimatePiSequential(numSamples, now);
    r := Estimate(numSamples, inside);
  }
}
