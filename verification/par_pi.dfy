/**
 * The parallel estimator: the thread count is clamped into
 * [1, num_samples], the samples are split as evenly as possible over the
 * workers, each worker gets its own seed and counts its own samples, and the
 * driver sums the inside-counts of the workers it started.
 *
 * The workers share no state (each writes only its own work unit), so they
 * are modelled as running one after another, each right after it is spawned.
 */
module ParPi {
  import opened Bits
  import opened Lcg
  import opened Sampling
  import opened Optional

  /** The number of samples used when none is given on the command line. */
  const DefaultSamples: i64 := 1000000

  /** The thread count used when the processor count cannot be read. */
  const FallbackThreads: int := 2

  /** Knuth's multiplicative-hash constant, odd, so invertible modulo 2^32 ... */
  const HashMultiplier: int := 2654435761

  /** ... with this inverse: HashMultiplier * HashInverse == 1 + 150801925 * 2^32. */
  const HashInverse: int := 244002641

  /** `ThreadData`: one work unit, its sample count, its seed and its result. */
  datatype ThreadData = ThreadData(numSamples: i64, seed: u32, inside: i64)

  /** What a run ends with: an exit status, or the figures behind the printed report. */
  datatype Outcome =
    | Exit(status: int)
    | Estimate(numSamples: i64, numThreads: int, insideTotal: int)

  function Min(a: int, b: int): int
  {
    if a <= b then a else b
  }

  // ---------------------------------------------------------------------
  // Thread count
  // ---------------------------------------------------------------------

  /**
   * The thread count once the request has been resolved: a positive request
   * is kept, otherwise the processor count (2 if it is below 1), converted
   * to `int`.
   */
  function Resolved(requested: i32, nprocs: i64): i32
  {
    if requested > 0 then requested
    else ToI32(if nprocs < 1 then FallbackThreads else nprocs)
  }

  /** The thread count after both clamps. */
  function ThreadCount(numSamples: i64, requested: i32, nprocs: i64): int
  {
    var t := Resolved(requested, nprocs);
    if t <= 0 then 1 else Min(t, numSamples)
  }

  /** What each kind of request yields, and that every outcome lies in [1, num_samples]. */
  lemma ThreadCountCases(numSamples: i64, requested: i32, nprocs: i64)
    requires numSamples >= 1
    ensures 1 <= ThreadCount(numSamples, requested, nprocs) <= numSamples
    ensures requested >= 1 ==> ThreadCount(numSamples, requested, nprocs) == Min(requested, numSamples)
    ensures requested <= 0 && nprocs < 1 ==>
              ThreadCount(numSamples, requested, nprocs) == Min(FallbackThreads, numSamples)
    ensures requested <= 0 && 1 <= nprocs < 0x8000_0000 ==>
              ThreadCount(numSamples, requested, nprocs) == Min(nprocs, numSamples)
  {
  }

  /**
   * The last clamp (`num_threads <= 0` becomes 1) fires exactly when no
   * positive count was requested and the processor count, positive as a
   * `long`, wraps to a non-positive `int`; so it never fires on a processor
   * count that fits in an `int`.
   */
  lemma LastClampFiresOnlyOnWrap(numSamples: i64, requested: i32, nprocs: i64)
    requires numSamples >= 1
    ensures (var t := Resolved(requested, nprocs); (if numSamples < t then numSamples else t) <= 0)
        <==> requested <= 0 && nprocs >= 1 && ToI32(nprocs) <= 0
    ensures nprocs < 0x8000_0000 ==> Resolved(requested, nprocs) >= 1
  {
  }

  /** The successive updates of `num_threads` in `main`. */
  method ClampThreadCount(numSamples: i64, requested: i32, nprocs: i64) returns (numThreads: i32)
    requires numSamples >= 1
    ensures numThreads == ThreadCount(numSamples, requested, nprocs)
    ensures 1 <= numThreads <= numSamples
  {
    numThreads := requested;
    if numThreads <= 0 {
      var procs := nprocs;
      if procs < 1 {
        procs := FallbackThreads;
      }
      numThreads := ToI32(procs);
    }
    if numSamples < numThreads {
      numThreads := numSamples as i32;
    }
    if numThreads <= 0 {
      numThreads := 1;
    }
  }

  // ---------------------------------------------------------------------
  // Partition
  // ---------------------------------------------------------------------

  /** The sample count of worker j: the quotient, plus one for the first `n % t` workers. */
  function Share(n: int, t: int, j: int): int
    requires t >= 1
  {
    n / t + (if j < n % t then 1 else 0)
  }

  /** The samples given to workers 0 .. k-1. */
  function SumShares(n: int, t: int, k: nat): int
    requires t >= 1
  {
    if k == 0 then 0 else SumShares(n, t, k - 1) + Share(n, t, k - 1)
  }

  /**
   * Exactly the first `n % t` workers get the extra sample, every other
   * worker gets the quotient, so no two shares differ by more than one;
   * every share lies in [0, n], and is at least 1 once t <= n.
   */
  lemma ShareShape(n: int, t: int, j: int)
    requires n >= 0 && t >= 1 && 0 <= j < t
    ensures 0 <= n % t < t
    ensures Share(n, t, j) == n / t + 1 <==> j < n % t
    ensures Share(n, t, j) == n / t <==> n % t <= j
    ensures 0 <= Share(n, t, j) <= n
    ensures t <= n ==> Share(n, t, j) >= 1
  {
    QuotientFacts(n, t);
    QuotientBounds(n, t, n / t, n % t);
  }

  /** Euclidean division of a natural by a positive divisor. */
  lemma QuotientFacts(n: int, t: int)
    requires n >= 0 && t >= 1
    ensures n == t * (n / t) + n % t && 0 <= n % t < t && n / t >= 0
  {
  }

  /** For n == t * b + rem: the quotient is at most n, even plus one when rem > 0, and at least 1 once t <= n. */
  lemma QuotientBounds(n: int, t: int, b: int, rem: int)
    requires t >= 1 && b >= 0 && 0 <= rem < t && n == t * b + rem
    ensures b <= n
    ensures rem > 0 ==> b + 1 <= n
    ensures t <= n ==> b >= 1
  {
    MulAtLeast(t, b);
    if rem > 0 {
      MulAtLeast(t - 1, b);
      assert t * b == (t - 1) * b + b;
    }
    if b == 0 {
      assert t * b == 0;
    }
  }

  lemma {:induction false} MulAtLeast(m: nat, b: nat)
    ensures m * b >= 0 && (m >= 1 ==> m * b >= b)
  {
    if m > 1 {
      MulAtLeast(m - 1, b);
      assert m * b == (m - 1) * b + b;
    }
  }

  /** The first k workers get k times the quotient plus one extra sample for each of them below `n % t`. */
  lemma {:induction false} SumSharesPrefix(n: int, t: int, k: nat)
    requires n >= 0 && t >= 1 && k <= t
    ensures SumShares(n, t, k) == k * (n / t) + Min(k, n % t)
  {
    if k > 0 {
      SumSharesPrefix(n, t, k - 1);
      assert k * (n / t) == (k - 1) * (n / t) + n / t;
    }
  }

  /** The shares cover the samples exactly: all t of them add up to n, with no gap and no overlap. */
  lemma SharesCoverSamples(n: int, t: int)
    requires n >= 0 && t >= 1
    ensures SumShares(n, t, t) == n
  {
    SumSharesPrefix(n, t, t);
    QuotientFacts(n, t);
  }

  /**
   * The first k shares add up to at most n, and to strictly less when
   * k < t and every worker has at least one sample.
   */
  lemma SharesPrefixBounds(n: int, t: int, k: nat)
    requires n >= 0 && t >= 1 && k <= t
    ensures 0 <= SumShares(n, t, k) <= n
    ensures k < t <= n ==> SumShares(n, t, k) < n
  {
    SumSharesPrefix(n, t, k);
    QuotientFacts(n, t);
    QuotientBounds(n, t, n / t, n % t);
    PrefixArith(t, k, n / t, n % t);
  }

  /** k quotients and at most k extras stay within t quotients and rem extras. */
  lemma PrefixArith(t: int, k: int, b: int, rem: int)
    requires 0 <= k <= t && b >= 0 && 0 <= rem < t
    ensures 0 <= k * b + Min(k, rem) <= t * b + rem
    ensures k < t && b >= 1 ==> k * b + Min(k, rem) < t * b + rem
  {
    MulAtLeast(k, b);
    MulAtLeast(t - k, b);
    assert t * b == k * b + (t - k) * b;
  }

  // ---------------------------------------------------------------------
  // Seeds
  // ---------------------------------------------------------------------

  /** `(unsigned int)(i * 2654435761u)`. */
  function IndexHash(i: int): u32
  {
    ToU32(ToU32(i) * HashMultiplier)
  }

  /** The seed of worker i when `time(NULL)` reads now: `(unsigned int)now ^ IndexHash(i)`. */
  function Seed(now: i64, i: int): u32
  {
    XorU32(ToU32(now), IndexHash(i))
  }

  /** Multiplying by the inverse undoes the hash of any index below 2^32. */
  lemma IndexHashInverse(i: u32)
    ensures IndexHash(i) * HashInverse % U32Modulus == i
  {
    var p := i * HashMultiplier;
    var u, r := p / U32Modulus, p % U32Modulus;
    assert p == u * U32Modulus + r;
    assert IndexHash(i) == r;
    assert r * HashInverse == i + (i * 150801925 - u * HashInverse) * U32Modulus;
    ModOfOffset(r * HashInverse, i * 150801925 - u * HashInverse, i);
  }

  /** x % 2^32 is the offset i of x from a multiple of 2^32, for i in [0, 2^32). */
  lemma ModOfOffset(x: int, c: int, i: int)
    requires 0 <= i < U32Modulus && x == i + c * U32Modulus
    ensures x % U32Modulus == i
  {
  }

  /** Distinct indices below 2^32 have distinct hashes. */
  lemma IndexHashInjective(i: u32, j: u32)
    requires IndexHash(i) == IndexHash(j)
    ensures i == j
  {
    IndexHashInverse(i);
    IndexHashInverse(j);
  }

  /** With the same clock reading, distinct workers get distinct seeds. */
  lemma SeedsDistinct(now: i64, i: int, j: int)
    requires 0 <= i < U32Modulus && 0 <= j < U32Modulus && i != j
    ensures Seed(now, i) != Seed(now, j)
  {
    if Seed(now, i) == Seed(now, j) {
      XorInjective(ToU32(now), IndexHash(i), IndexHash(j));
      IndexHashInjective(i, j);
    }
  }

  // ---------------------------------------------------------------------
  // Work units, workers and the spawn loop
  // ---------------------------------------------------------------------

  /** The work unit that the spawn loop writes for worker i before spawning it. */
  function WorkUnit(n: i64, t: int, i: int, now: i64): ThreadData
    requires n >= 0 && 1 <= t && 0 <= i < t
  {
    ShareShape(n, t, i);
    ThreadData(Share(n, t, i), Seed(now, i), 0)
  }

  /** A work unit after its worker has run. */
  function Completed(u: ThreadData): ThreadData
  {
    u.(inside := Inside(u.seed, u.numSamples))
  }

  /**
   * `worker(&data[i])`: runs the counting loop on the unit's own sample
   * count and seed and writes the count into the unit's `inside`; nothing
   * else changes.
   */
  method Worker(data: array<ThreadData>, i: int)
    requires 0 <= i < data.Length
    modifies data
    ensures data[..] == old(data[..])[i := Completed(old(data[i]))]
    ensures 0 <= data[i].inside <= if data[i].numSamples <= 0 then 0 else data[i].numSamples
  {
    var inside, _ := SampleLoop(data[i].numSamples, data[i].seed);
    data[i] := data[i].(inside := inside);
  }

  /** How many workers the spawn loop starts when the spawn at index firstFailure (if any) fails. */
  function Started(t: int, firstFailure: Option<nat>): int
  {
    if firstFailure.Some? && firstFailure.value < t then firstFailure.value else t
  }

  /**
   * The partition, seed and spawn loop of `main`: for each i below
   * `data.Length` (the thread count), fill `data[i]` and spawn its worker;
   * stop at the first failed spawn. clock(i) is what `time(NULL)` returns
   * in iteration i. Returns the new thread count: the number of workers
   * started.
   */
  method SpawnWorkers(data: array<ThreadData>, numSamples: i64, clock: nat -> i64, firstFailure: Option<nat>)
    returns (numThreads: int)
    requires 1 <= data.Length < 0x8000_0000 && numSamples >= 0
    modifies data
    ensures numThreads == Started(data.Length, firstFailure)
    ensures forall j :: 0 <= j < numThreads ==>
              data[j] == Completed(WorkUnit(numSamples, data.Length, j, clock(j)))
    ensures numThreads < data.Length ==>
              data[numThreads] == WorkUnit(numSamples, data.Length, numThreads, clock(numThreads))
    ensures forall j :: numThreads < j < data.Length ==> data[j] == old(data[j])
  {
    var t := data.Length;
    var base := numSamples / t;
    var remainder := numSamples % t;
    numThreads := t;
    var i := 0;
    while i < t
      invariant 0 <= i <= t && numThreads == t
      invariant i <= Started(t, firstFailure)
      invariant forall j :: 0 <= j < i ==> data[j] == Completed(WorkUnit(numSamples, t, j, clock(j)))
      invariant forall j :: i <= j < t ==> data[j] == old(data[j])
    {
      ShareShape(numSamples, t, i);
      var seed := ToU32(clock(i));
      seed := XorU32(seed, ToU32(ToU32(i) * HashMultiplier));
      data[i] := ThreadData(base + (if i < remainder then 1 else 0), seed, 0);
      var spawned := !(firstFailure.Some? && firstFailure.value == i);
      if !spawned {
        numThreads := i;
        break;
      }
      Worker(data, i);
      i := i + 1;
    }
  }

  // ---------------------------------------------------------------------
  // Reduction
  // ---------------------------------------------------------------------

  /** The sum of the inside-counts of a sequence of work units. */
  function SumInside(units: seq<ThreadData>): int
  {
    if units == [] then 0 else SumInside(units[..|units| - 1]) + units[|units| - 1].inside
  }

  /** The join-and-sum loop of `main` over the first numThreads work units. */
  method JoinAndReduce(data: array<ThreadData>, numThreads: int) returns (insideTotal: int)
    requires 0 <= numThreads <= data.Length
    ensures insideTotal == SumInside(data[..numThreads])
  {
    insideTotal := 0;
    var i := 0;
    while i < numThreads
      invariant 0 <= i <= numThreads
      invariant insideTotal == SumInside(data[..i])
    {
      assert data[..i + 1][..i] == data[..i];
      insideTotal := insideTotal + data[i].inside;
      i := i + 1;
    }
  }

  /** The inside-count of the first k workers of a run with n samples over t threads. */
  function ExpectedTotal(n: i64, t: int, clock: nat -> i64, k: nat): int
    requires n >= 0 && 1 <= t && k <= t
  {
    if k == 0 then 0
    else ExpectedTotal(n, t, clock, k - 1) + Completed(WorkUnit(n, t, k - 1, clock(k - 1))).inside
  }

  /** The first k workers count at most the samples they were given, hence at most n. */
  lemma {:induction false} ExpectedTotalBounds(n: i64, t: int, clock: nat -> i64, k: nat)
    requires n >= 0 && 1 <= t && k <= t
    ensures 0 <= ExpectedTotal(n, t, clock, k) <= SumShares(n, t, k) <= n
  {
    if k > 0 {
      ExpectedTotalBounds(n, t, clock, k - 1);
      ShareShape(n, t, k - 1);
    }
    SharesPrefixBounds(n, t, k);
  }

  /** Summing the completed units written by the spawn loop yields the expected total. */
  lemma {:induction false} SumOfCompleted(units: seq<ThreadData>, n: i64, t: int, clock: nat -> i64, k: nat)
    requires n >= 0 && 1 <= t && k <= t && k <= |units|
    requires forall j :: 0 <= j < k ==> units[j] == Completed(WorkUnit(n, t, j, clock(j)))
    ensures SumInside(units[..k]) == ExpectedTotal(n, t, clock, k)
  {
    if k > 0 {
      assert units[..k][..k - 1] == units[..k - 1];
      SumOfCompleted(units, n, t, clock, k - 1);
    }
  }

  // ---------------------------------------------------------------------
  // The driver
  // ---------------------------------------------------------------------

  /**
   * `main`: samplesArg and threadsArg are the values `atoll` and `atoi`
   * parsed from the arguments that were given; nprocs is what `sysconf`
   * reports; allocFails says whether either allocation fails; clock(i) is
   * the `time(NULL)` reading in iteration i of the spawn loop; firstFailure
   * is the index of the first spawn that fails, if any.
   */
  method RunParallel(samplesArg: Option<i64>, threadsArg: Option<i32>, nprocs: i64, allocFails: bool,
                     clock: nat -> i64, firstFailure: Option<nat>)
    returns (r: Outcome)
    requires threadsArg.Some? ==> samplesArg.Some?
    ensures samplesArg.Some? && samplesArg.value <= 0 ==> r == Exit(1)
    ensures !(samplesArg.Some? && samplesArg.value <= 0) && allocFails ==> r == Exit(1)
    ensures !(samplesArg.Some? && samplesArg.value <= 0) && !allocFails ==>
              var n := if samplesArg.Some? then samplesArg.value else DefaultSamples;
              var t := ThreadCount(n, if threadsArg.Some? then threadsArg.value else 0, nprocs);
              r == Estimate(n, t, ExpectedTotal(n, t, clock, Started(t, firstFailure)))
    ensures r.Estimate? ==> 1 <= r.numThreads <= r.numSamples
    ensures r.Estimate? ==> 0 <= r.insideTotal <= r.numSamples
  {
    var numSamples := DefaultSamples;
    var requested: i32 := 0;
    if samplesArg.Some? {
      numSamples := samplesArg.value;
      if numSamples <= 0 {
        return Exit(1);
      }
    }
    if threadsArg.Some? {
      requested := threadsArg.value;
    }
    var numThreads := ClampThreadCount(numSamples, requested, nprocs);
    if allocFails {
      return Exit(1);
    }
    var data := new ThreadData[numThreads](_ => ThreadData(0, 0, 0));
    var started := SpawnWorkers(data, numSamples, clock, firstFailure);
    var insideTotal := JoinAndReduce(data, started);
    SumOfCompleted(data[..], numSamples, numThreads, clock, started);
    assert data[..][..started] == data[..started];
    ExpectedTotalBounds(numSamples, numThreads, clock, started);
    r := Estimate(numSamples, numThreads, insideTotal);
  }
}
