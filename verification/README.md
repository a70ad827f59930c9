# Monte Carlo estimation of π: a verified model of the integer core

The program estimates π by drawing points in the unit square and counting
those that fall in the quarter circle of radius 1. It comes in two
variants: a sequential estimator (`src/seq_pi.c`) and a POSIX-threads
estimator (`src/par_pi_pthreads.c`). The threaded one clamps the thread
count into [1, num_samples]. It splits the samples over the workers and
seeds each worker from the clock XOR a multiplicative hash of its index.
It then sums the inside-counts of the workers it managed to start.

This project models in Dafny everything in that pipeline that is not
floating point, timing, printing or thread plumbing:

- `bits.dfy` (module `Bits`): the C integer types as subset types of `int`
  (`u32`, `i32`, `i64`). It also holds the conversions `(unsigned int)x` and
  `(int)x`, and bitwise XOR on naturals with its injectivity.
- `lcg.dfy` (module `Lcg`): `lcg_rand01`. The state update is
  `s := (s * 1103515245 + 12345) mod 2^32`, the multiplier and increment of
  the portable `rand()` example of ISO C11 section 7.22.2.2. The draw is
  bits [8, 32) of the new state as a 24-bit integer a, and the value
  returned is a / 2^24. The pointer-to-state argument becomes the `state`
  field of a `Generator` object.
- `sampling.dfy` (module `Sampling`): the counting loop shared by
  `estimate_pi_sequential` and `worker`. Its specification function
  `Inside` gives the inside-count of n samples from a generator state.
- `seq_pi.dfy` (module `SeqPi`): `estimate_pi_sequential` up to the final
  division, and `main` with its argument check.
- `par_pi.dfy` (module `ParPi`): from `main` of the threaded variant, the
  thread-count clamp, the partition/seed/spawn loop over the `ThreadData`
  array, `worker`, the join-and-sum loop, and `main` as a whole.

Modelling choices:

- Integer widths are explicit. `unsigned int` arithmetic is reduced modulo
  2^32. `(int)nprocs` wraps modulo 2^32 into the `int` range, as GCC and
  Clang do. `long long` values are `i64`. The cast `(int)num_samples` at
  `src/par_pi_pthreads.c:66` is only reached when num_samples is below a
  positive `int`, so it is the identity there.
- The doubles are modelled as exact reals. `a / 2^24` is exactly
  representable for a 24-bit a. Each square is a multiple of 2^-48 below 1
  (at most 48 significant bits). Their sum is below 2 and a multiple of
  2^-48 (at most 49 significant bits). So every double operation in
  `x * x + y * y <= 1.0` is exact. `Sampling.InQuarterCircleExact` then
  proves that test equivalent to the integer test `a*a + b*b <= 2^48`.
- The operating system's answers are parameters:
  - `now` / `clock(i)`: the `time(NULL)` reading. The threaded variant reads
    the clock anew in every iteration of the spawn loop (line 96), so
    `clock` maps the iteration index to its reading. The seeds are thus not
    all derived from one reading of the clock: two workers spawned on either
    side of a second boundary XOR their hashes into different readings. The
    model follows the code here; `ParPi.SeedsDistinct` is stated for equal
    readings.
  - `nprocs`: what `sysconf` returns.
  - `allocFails`: whether either `malloc` fails.
  - `firstFailure`: the index of the first `pthread_create` that fails, if
    any.
  - `samplesArg` / `threadsArg`: what `atoll` and `atoi` returned for the
    arguments that were given.
- The workers share no state and each writes only its own `ThreadData`.
  So a successful spawn is modelled as running the worker to completion
  right away, and the join loop reads the results afterwards.
- The two draws and the comparison of one loop iteration are a separate
  method, `Sampling.SamplePoint`, that the counting loop calls.

On the failed-spawn path the model keeps the source's behaviour. The
thread count drops to the failing index k, and only workers 0..k-1 are
summed. The estimate is still divided by the original num_samples, even
though fewer samples were drawn. `ParPi.SharesPrefixBounds` proves the
drawn count is strictly smaller whenever a spawn fails.

## Model

| member | source | states |
|---|---|---|
| `Bits.ToU32` | src/par_pi_pthreads.c:96-97 | `(unsigned int)` of any integer is congruent to it modulo 2^32, lies in [0, 2^32), and is the identity on [0, 2^32) |
| `Bits.ToI32` | src/par_pi_pthreads.c:60-62 | `(int)` of a `long` is congruent to it modulo 2^32, lies in the `int` range, and is the identity on values that fit |
| `Bits.XorBelow` | src/par_pi_pthreads.c:96-97 | the XOR of two n-bit values is an n-bit value, so `seed ^= …` stays an `unsigned int` |
| `Bits.XorCancel` | src/par_pi_pthreads.c:96-97 | XOR with a fixed value is its own inverse: `t ^ (t ^ a) == a` |
| `Bits.XorInjective` | src/par_pi_pthreads.c:96-98 | for a fixed clock value, the seed determines the index hash XORed into it |
| `Lcg.Draw` | src/par_pi_pthreads.c:16 | `(state >> 8) & 0xFFFFFF` is below 2^24 and is exactly bits [8, 32) of the state: `a * 256 <= s < (a + 1) * 256` |
| `Lcg.FractionInUnitInterval` | src/seq_pi.c:16-23 | the value returned, a / 2^24, lies in [0, 1), as the doc comment promises |
| `Lcg.IterateAdd` | src/seq_pi.c:17-21 | k steps followed by m steps are k + m steps, so a stream is determined by its state alone |
| `Lcg.Generator.constructor` | src/par_pi_pthreads.c:29 | a generator starts in the given seed state |
| `Lcg.Generator.Rand01` | src/par_pi_pthreads.c:14-18 | the state becomes `(s * 1103515245 + 12345) mod 2^32` and is written back, and the result is the new state's 24-bit draw over 2^24, in [0, 1) |
| `Sampling.InQuarterCircleExact` | src/seq_pi.c:34-36 | for 24-bit draws a and b, `x*x + y*y <= 1.0` on x = a/2^24 and y = b/2^24 holds iff `a*a + b*b <= 2^48` |
| `Sampling.Inside` | src/seq_pi.c:30-39 | the inside-count of n samples lies in [0, n] and is 0 when n <= 0 |
| `Sampling.InsideSplit` | src/seq_pi.c:33-35 | the count of m + k samples is the count of the first m plus that of k samples from the state reached after them (determinism: a count depends only on the starting state) |
| `Sampling.SamplePoint` | src/par_pi_pthreads.c:32-34 | one iteration advances the generator by exactly two steps and reports a hit iff the point of the two draws is in the quarter circle |
| `Sampling.SampleLoop` | src/par_pi_pthreads.c:28-37 | the loop's count equals `Inside(seed, N)`, lies in [0, N] (0 for N <= 0), and the generator ends exactly 2N steps past the seed |
| `SeqPi.EstimatePiSequential` | src/seq_pi.c:29-39 | seeded with `(unsigned int)time(NULL)`, the count is the inside-count of num_samples samples from that seed, in [0, num_samples], and the final state is the LCG iterated 2·num_samples times |
| `SeqPi.RunSequential` | src/seq_pi.c:44-59 | exit status 1 iff the given num_samples is non-positive (no sampling happens then); otherwise the count is over num_samples samples, 1000000 by default |
| `ParPi.ThreadCountCases` | src/par_pi_pthreads.c:59-71 | the clamped thread count lies in [1, num_samples]; a positive request gives min(request, num_samples); otherwise, for a processor count that fits in an `int`, min(nprocs, num_samples), and min(2, num_samples) for a processor count below 1 |
| `ParPi.LastClampFiresOnlyOnWrap` | src/par_pi_pthreads.c:59-71 | the fallback at line 69 fires iff no positive count was requested and `(int)nprocs` wraps a positive `long` to a non-positive `int`; so it never fires for a processor count that fits in an `int` |
| `ParPi.ClampThreadCount` | src/par_pi_pthreads.c:59-71 | the successive updates of `num_threads` yield `ThreadCount`, in [1, num_samples] |
| `ParPi.ShareShape` | src/par_pi_pthreads.c:87-93 | worker j gets `base + 1` iff j < remainder and `base` otherwise (so the extra samples go to the lowest `remainder` indices, remainder < t); each share is in [0, n] and at least 1 when t <= n |
| `ParPi.SumSharesPrefix` | src/par_pi_pthreads.c:87-93 | the first k shares sum to k·base + min(k, remainder) |
| `ParPi.SharesCoverSamples` | src/par_pi_pthreads.c:87-93 | the t shares sum to exactly num_samples: no gap, no overlap |
| `ParPi.SharesPrefixBounds` | src/par_pi_pthreads.c:100-112 | the shares of the first k workers sum to at most num_samples, and strictly less when k < t <= num_samples (a failed spawn loses samples) |
| `ParPi.IndexHashInverse` | src/par_pi_pthreads.c:97 | multiplying `(unsigned)(i * 2654435761u)` by 244002641 modulo 2^32 recovers i, for every i below 2^32 |
| `ParPi.IndexHashInjective` | src/par_pi_pthreads.c:97 | distinct indices below 2^32 have distinct hashes |
| `ParPi.SeedsDistinct` | src/par_pi_pthreads.c:96-98 | for the same clock reading, distinct worker indices below 2^32 get distinct seeds |
| `ParPi.Worker` | src/par_pi_pthreads.c:26-41 | the worker sets only its own unit's `inside`, to the inside-count of its own sample count from its own seed, in [0, N]; no other unit changes |
| `ParPi.SpawnWorkers` | src/par_pi_pthreads.c:87-106 | the loop starts workers 0..k-1 (k = the first failing index, or t); each of them holds its share, its seed and its final count; unit k, if it failed, is filled but keeps count 0; later units are untouched; the new thread count is k |
| `ParPi.JoinAndReduce` | src/par_pi_pthreads.c:108-112 | the total is the sum of the `inside` fields of the first num_threads units |
| `ParPi.ExpectedTotalBounds` | src/par_pi_pthreads.c:108-112 | the total over the first k workers lies between 0 and the samples they were given, hence within num_samples, so the `long long` sum cannot overflow |
| `ParPi.SumOfCompleted` | src/par_pi_pthreads.c:108-112 | summing the units the spawn loop completed gives the inside-counts of the started workers' own streams |
| `ParPi.RunParallel` | src/par_pi_pthreads.c:43-117 | exit 1 on non-positive num_samples or failed allocation; otherwise the report carries the original num_samples as divisor, the clamped thread count in [1, num_samples], and the sum over the started workers' counts, in [0, num_samples] |

## Left out

- Thread creation and joining (`pthread_create`, `pthread_join`) are concurrency. The workers run sequentially in the model. This is faithful because they share no state.
- The clock (`now_seconds`, `gettimeofday`, `time(NULL)`) is I/O. The readings are parameters.
- `sysconf(_SC_NPROCESSORS_ONLN)` is a foreign OS call. Its answer is the parameter nprocs.
- Argument parsing with `atoll` and `atoi` is a library parser. The parsed values are parameters. Whether each argument was given is an `Option`, and a second argument implies a first.
- `malloc` and `free` are not modelled. An allocation failure is a boolean input that leads to exit status 1.
- `printf` and `fprintf` output is not modelled. A run ends in an `Outcome` carrying the figures that would be printed.
- The floating-point estimate `4.0 * inside / num_samples` and the elapsed-time arithmetic are not modelled. The model stops at the integer inside-count.
- No statistical or convergence claim about the estimate is made. Nothing in the code supports one.
- Bit-level IEEE 754 double arithmetic is not modelled. The doubles are exact reals, which is justified above for the operations in the sampling test.
