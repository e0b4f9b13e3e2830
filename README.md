# Para-Comp: the sequential core of the pthreads programs, in Dafny

Five pthreads teaching programs share one sequential layer. This project models that layer and proves its properties:

- Each program splits its work by thread rank: `n = total / P`, `start = n * rank`, `end = start + n`. The division is C's truncating division.
- `histogram_pthreads.c` runs a pipeline:
  - the `findBin` binary search;
  - per-rank counting into a private row of `local_bin_counts`;
  - a condition-variable barrier;
  - rank 0's merge of the rows into `bin_counts`;
  - `main`'s bin-sum check.
- `parallel_vector_rotate.c` stores its vectors three slots each and rotates each rank's block. It meets at a counting-semaphore barrier, sums each rank's own block into `my_result`, and combines that into `result` once per thread.
- Two series estimates, π (`pth_pi_mutex.c`) and ln 2 (`parallel.c`), and the serial ln 2 reference (`serial.c`):
  - per-rank index ranges;
  - the sign kept in `factor` / `my_sign` / `sign`;
  - rank 0's move of `first_i` from 0 to 1;
  - the one-time update of the shared `sum` and `flag`;
  - the command-line checks.

## How it is modelled

- One module per program: `Histogram`, `VectorRotate`, `PiMutex`, `Ln2Serial`, `Ln2Parallel`.
- Shared modules:
  - `Partition`: rank blocks;
  - `CArith`: C's `/` and `%`;
  - `Signs`: (-1)^k;
  - `Reduction`: range sums, and sums over a schedule of ranks;
  - `Barrier`: both barriers as classes;
  - `Wrappers`: `Option`.
- Floating-point values are exact `real`s. The series term values `1/(2i+1)` and `1/i` are an abstract parameter `term: int -> real`. The matrix-vector product `multMatrixVector` is an abstract `rotate: Vec3 -> Vec3`.
- `strtol`, `strtoll` and `atoi` are abstract `string -> int` parameters.
- `usage` / `Usage` and `findBin`'s `exit` become a `None` or `ok == false` result.
- The barriers are sequential state machines. Each arrival reports whether it would suspend, and the releasing arrival reports how many waiters it wakes.
- Drivers (`Run`, `RunHistogram`) execute main's create/join loops. Each thread's work runs as a whole.
  - In the π, ln 2 and vector programs, the mutex-protected updates run in an arbitrary schedule `order`, which is any permutation of the ranks. The results of `PiShared.Run`, `LnShared.Run` and `VectorRotate.SumPhase` hold for every schedule.
  - In the histogram and the vector program, the driver runs the phase before the barrier for every rank first, and only then the phase after. That first phase (`Histogram.CountPhase`, `VectorRotate.TransformPhase`) runs the ranks in rank order 0..P-1; see "## Left out".
- The code does not give the remainder to the last rank, and the model follows the code:
  - every rank gets exactly `total / P` items;
  - the `end > total` clamp can never fire;
  - the last `total % P` items, terms or vectors are never visited.

  So the histogram's bin sum is `P * (data_count / P)`, and each series sum runs over `[0, (n/P)·P)` (π) or `[1, (n/P)·P)` (ln 2).

## Model

| member | source | states |
|---|---|---|
| CArith.TruncDiv | week7/examPthreads/parallel.c:84 | C's `/` for a positive divisor rounds toward zero. For a ≥ 0 it is the floor quotient; for a < 0 the quotient is ≤ 0 and `b*q` lies within `b` above `a`. |
| CArith.TruncRem | week5/labMutex/pth_pi_mutex.c:100 | C's `%` satisfies `a == b*(a/b) + r`. The remainder has the dividend's sign, has magnitude below `b`, and is 0 exactly when `b` divides `a`. |
| Partition.BlockStart | week7/histogramPractice/histogram_pthreads.c:215-216 | `start = (total/P)*rank`; when `total >= 0`, for ranks 0..P it lies in `[0, (total/P)*P]`, which lies in `[0, total]`. |
| Partition.BlockEnd | week7/histogramPractice/histogram_pthreads.c:217 | `end = start + total/P` is exactly the next rank's start, so consecutive ranks are adjacent. |
| Partition.ClampNeverFires | week7/histogramPractice/histogram_pthreads.c:218 | For every rank in `[0, P)`, the guard `if (end > data_count) end = data_count` leaves `end` unchanged. |
| Partition.BlocksOrdered | week5/labMutex/pth_pi_mutex.c:95-97 | A lower rank's block ends at or before a higher rank's block starts, so blocks are disjoint. |
| Partition.Owner | week7/histogramPractice/histogram_pthreads.c:215-217 | Every index of the covered prefix belongs to a rank in `[0, P)`. |
| Partition.Coverage | week6/assignmentPthreads/parallel_vector_rotate.c:166-168 | An index lies in some rank's block iff it lies in `[0, (total/P)*P)`. |
| Partition.RemainderLeftOut | week7/histogramPractice/histogram_pthreads.c:215-218 | The covered prefix is `total - total % P`: no rank takes the remainder. |
| Partition.ExactWhenDivisible | week5/labMutex/pth_pi_mutex.c:14 | When P divides the total, the blocks cover exactly `[0, total)`. |
| Partition.FewerItemsThanRanks | week7/examPthreads/parallel.c:84-86 | With `0 <= total < P`, every rank gets the empty range `[0, 0)`. |
| Partition.NegativeTotalEmpty | week7/examPthreads/parallel.c:38 | A negative, unchecked total gives every rank an empty range. |
| Partition.TenItemsOnThreeRanks | week7/histogramPractice/histogram_pthreads.c:215-218 | 10 items on 3 ranks give `[0,3)`, `[3,6)`, `[6,9)`; item 9 is never counted. |
| Signs.NegOnePowParity | week5/labMutex/pth_pi_mutex.c:100-103 | (-1)^k is +1 exactly for even k and -1 exactly for odd k. |
| Signs.NegOnePowNext | week5/labMutex/pth_pi_mutex.c:115 | Negating the sign after index k gives the sign of index k+1. |
| Reduction.SumByPermutation | week5/labMutex/pth_pi_mutex.c:118-121 | The shared sum after every rank's one addition does not depend on the order of the critical sections. |
| Reduction.BlockPartialsTotal | week5/labMutex/pth_pi_mutex.c:113-121 | The block partial sums of ranks 0..k-1 add up to the single sum over `[0, (total/P)*k)`. |
| Reduction.ScheduledBlockTotal | week5/labMutex/pth_pi_mutex.c:113-121 | In any schedule of the P ranks, the block partial sums add up to the sum over `[0, (total/P)*P)`. |
| Reduction.ScheduleRanks | week5/labMutex/pth_pi_mutex.c:66-70 | A schedule of P ranks has P entries, each a rank in `[0, P)`. |
| Barrier.VariantsAgree | week6/assignmentPthreads/parallel_vector_rotate.c:181-188 | The semaphore barrier's `counter < P-1` test makes the same transition as the condvar barrier's increment-then-`< P` test. |
| Barrier.PhaseStructure | week7/histogramPractice/histogram_pthreads.c:232-246 | After k arrivals the counter lies in `[0, P)`, and `k == P*resets + counter`. |
| Barrier.PhaseCount | week7/histogramPractice/histogram_pthreads.c:232-246 | After k arrivals the counter is `k % P` and the number of resets is `k / P`. |
| Barrier.ReleaserIsEveryPth | week7/histogramPractice/histogram_pthreads.c:234-246 | Arrival number k+1 resets and broadcasts iff `(k+1) % P == 0`. |
| Barrier.OneReleaserPerPhase | week7/histogramPractice/histogram_pthreads.c:234-246 | Each phase of P arrivals starts at counter 0 and contains exactly one reset. |
| Barrier.CondBarrier.constructor | week7/histogramPractice/histogram_pthreads.c:129-131 | The barrier starts at count 0 with nobody waiting. |
| Barrier.CondBarrier.Arrive | week7/histogramPractice/histogram_pthreads.c:230-248 | An arrival increments the count. If the count stays below P the thread waits; otherwise it resets the count to 0 and releases exactly the P-1 waiters. The invariant (count in `[0, P)` and equal to the number of waiters) holds whenever the mutex is free. |
| Barrier.SemBarrier.constructor | week6/assignmentPthreads/parallel_vector_rotate.c:107-109 | `counter = 0`, `barrier_sem = 0`, `count_sem = 1`. |
| Barrier.SemBarrier.PostBarrier | week6/assignmentPthreads/parallel_vector_rotate.c:190 | A post wakes one suspended thread, or is kept in the semaphore when nobody is suspended. |
| Barrier.SemCountAgrees | week6/assignmentPthreads/parallel_vector_rotate.c:181-188 | The semaphore barrier's counter, stepped by its own `counter < P-1` test, runs through the same values as the condvar barrier's count after every number of arrivals. |
| Barrier.SemBarrier.Arrive | week6/assignmentPthreads/parallel_vector_rotate.c:180-192 | A non-final arrival (`counter < P-1`) increments the counter and suspends. The final one resets it to 0 and posts P-1 times, one post per suspended thread. Afterwards the counter is in `[0, P)`, `count_sem` is 1 and no post is left over. |
| Barrier.SingleThreadSemBarrier | week6/assignmentPthreads/parallel_vector_rotate.c:181-191 | With P = 1 the first arrival takes the reset branch and posts zero times. |
| Barrier.SemBarrierPhase | week6/assignmentPthreads/parallel_vector_rotate.c:180-192 | In a phase of P arrivals, P-1 suspend, the last posts P-1 times, and the barrier is back at counter 0 with one reset. |
| Histogram.BinUnique | week7/histogramPractice/histogram_pthreads.c:392-396 | With ordered maxima, a measurement lies in at most one bin. |
| Histogram.BinOf | week7/histogramPractice/histogram_pthreads.c:392-396 | A measurement in `[min_meas, bin_maxes[bin_count-1])` lies in some bin. |
| Histogram.BinExists | week7/histogramPractice/histogram_pthreads.c:392-396 | A measurement has a bin iff it lies in `[min_meas, bin_maxes[bin_count-1])`. |
| Histogram.FindBin | week7/histogramPractice/histogram_pthreads.c:399-426 | The result is the bin `i` with `lower(i) <= data < bin_maxes[i]`. The failure exit is taken exactly when `data` is out of range. The loop keeps every matching bin within `[bottom, top]` and terminates. |
| Histogram.HistogramTotal | week7/histogramPractice/histogram_pthreads.c:182-185 | When every measurement of `[lo, hi)` is in range, the bin counts total `hi - lo`. |
| Histogram.ZeroTotal | week7/histogramPractice/histogram_pthreads.c:370 | Zeroed bins total 0. |
| Histogram.ThreadCount | week7/histogramPractice/histogram_pthreads.c:214-225 | Rank r counts its block `[n*r, n*r+n)` into row r. `ok` holds iff every measurement of the block has a bin; if so, the row grows by the block's per-bin counts; every other row is unchanged. |
| Histogram.CountBlock | week7/histogramPractice/histogram_pthreads.c:221-225 | `ok` is false, which is `findBin`'s exit, iff some measurement of `[start, end)` is out of range. If `ok`, row `rank` grows by the block's per-bin counts. Every other row is unchanged. |
| Histogram.MergeCounts | week7/histogramPractice/histogram_pthreads.c:254-259 | Every `bin_counts[b]` is overwritten with the column sum of `local_bin_counts[t][b]` over all threads. |
| Histogram.CreateBins | week7/histogramPractice/histogram_pthreads.c:367-371 | Every bin count is set to 0. |
| Histogram.BinSum | week7/histogramPractice/histogram_pthreads.c:182-184 | `bin_sum` is the total of all bin counts. |
| Histogram.ColumnOfBlocks | week7/histogramPractice/histogram_pthreads.c:254-259 | Summing column b over ranks 0..k-1 counts bin b over `[0, (n)*k)`. |
| Histogram.CountPhase | week7/histogramPractice/histogram_pthreads.c:205-248 | Every rank counts its block into its own row and arrives. Either `findBin` exits, exactly when a measurement of `[0, P*(data_count/P))` has no bin, or every row holds its block's counts, P-1 arrivals waited and the last released P-1. |
| Histogram.RunHistogram | week7/histogramPractice/histogram_pthreads.c:113-185 | If every measurement of `[0, P*(data_count/P))` has a bin, then the merged counts are the histogram of that prefix and `bin_sum == P*(data_count/P)`; otherwise `findBin` exits. With P < 1 no thread runs and the zeroed bins sum to 0. |
| VectorRotate.ProcessCommandLine | week6/assignmentPthreads/parallel_vector_rotate.c:233-238 | The command line is accepted iff there are exactly two user arguments, giving the file name and `atoi` of the thread count. |
| VectorRotate.SlotsInBounds | week6/assignmentPthreads/parallel_vector_rotate.c:171-177 | The slots `3v`..`3v+2` written for v in a rank's block lie in `[0, 3*num_vectors)`. |
| VectorRotate.SlotsDisjoint | week6/assignmentPthreads/parallel_vector_rotate.c:171-177 | Two different ranks never write the same slot of `rotated_vectors`. |
| VectorRotate.RankRange | week6/assignmentPthreads/parallel_vector_rotate.c:166-168 | `first_i = (nv/P)*rank` and `last_i = (nv/P)*(rank+1)`, with `0 <= first_i <= last_i <= nv`. The clamp does not fire. |
| VectorRotate.TransformBlock | week6/assignmentPthreads/parallel_vector_rotate.c:171-177 | Each vector of the block is rotated into its own three slots, and every slot outside the block keeps its value. |
| VectorRotate.AddVectorLaws | week6/assignmentPthreads/parallel_vector_rotate.c:289-295 | `addVectorVector`, modelled as `AddVector` with the out-parameter `c` returned as a `Vec3`, is commutative and associative, and `{0,0,0}` is its unit. |
| VectorRotate.LocalSum | week6/assignmentPthreads/parallel_vector_rotate.c:194-202 | `my_result` is the componentwise sum of the rank's own rotated vectors. |
| VectorRotate.Combine | week6/assignmentPthreads/parallel_vector_rotate.c:206-211 | `result` becomes `result + my_result` componentwise. |
| VectorRotate.TransformPhase | week6/assignmentPthreads/parallel_vector_rotate.c:157-192 | After every rank's transform loop and barrier arrival, the vectors of `[0, (nv/P)*P)` are rotated and later slots are untouched. P-1 threads suspended and the last posted P-1 times. |
| VectorRotate.SumAndCombine | week6/assignmentPthreads/parallel_vector_rotate.c:194-211 | One rank's summing loop and critical section add exactly its block's componentwise sum to `result`. |
| VectorRotate.SumPhase | week6/assignmentPthreads/parallel_vector_rotate.c:194-211 | In any schedule, every rank's single combine adds up to `result + Σ` of the rotated vectors over `[0, (nv/P)*P)`. |
| VectorRotate.Run | week6/assignmentPthreads/parallel_vector_rotate.c:107-133 | From `result = {0,0,0}`: the covered vectors are rotated and `result` is their componentwise sum. With P < 1 nothing changes. |
| PiMutex.ProcessCommandLine | week5/labMutex/pth_pi_mutex.c:150-156 | The command line is accepted iff argc == 3, `1 <= thread_count <= 1024` and `n >= 1`. |
| PiMutex.AcceptsMaxThreads | week5/labMutex/pth_pi_mutex.c:153 | p = 1024 is accepted, although the usage text asks for p < 1024. |
| PiMutex.InitialFactor | week5/labMutex/pth_pi_mutex.c:100-103 | `factor` starts at (-1)^my_first_i, and it is +1 iff `my_first_i` is even. |
| PiMutex.LocalPiSum | week5/labMutex/pth_pi_mutex.c:114-117 | `my_sum` is the sum of (-1)^i·term(i) over `[my_first_i, my_last_i)`, with `factor == (-1)^i` at every index. |
| PiMutex.ModSucc | week5/labMutex/pth_pi_mutex.c:110 | Reducing `flag` modulo P before the increment gives the same result as reducing it after. |
| PiMutex.FlagAfter | week5/labMutex/pth_pi_mutex.c:110 | k executions of `flag = (flag+1) % thread_count` from a valid flag leave `(flag0 + k) mod P`, and the flag stays in `[0, P)`. |
| PiMutex.PiShared.constructor | week5/labMutex/pth_pi_mutex.c:64-65 | `sum = 0.0; flag = 0` for a validated configuration. |
| PiMutex.PiShared.ThreadPiSum | week5/labMutex/pth_pi_mutex.c:91-122 | VERSION 2: `sum` grows by the rank's signed block sum, and `flag` by exactly 1. |
| PiMutex.PiShared.ThreadPiSumV1 | week5/labMutex/pth_pi_mutex.c:106-112 | VERSION 1: `sum` grows by the same block sum, and `flag` moves on by the block size modulo P, staying in `[0, P)`. |
| PiMutex.PiShared.AddTerm | week5/labMutex/pth_pi_mutex.c:108-111 | The critical section adds `factor·term(i)` to `sum` and steps `flag` modulo P, keeping it in `[0, P)`. |
| PiMutex.PiShared.AddNextTerm | week5/labMutex/pth_pi_mutex.c:107-111 | One iteration extends `sum` by the next signed term and advances `flag` by one more step. |
| PiMutex.PiShared.AddTermsShared | week5/labMutex/pth_pi_mutex.c:107-112 | Each term goes into `sum` and steps `flag` modulo P. |
| PiMutex.PiShared.Run | week5/labMutex/pth_pi_mutex.c:64-75 | In any schedule: `sum == 4·Σ_{i<(n/P)P} (-1)^i·term(i)`, which is the sum over `[0, n)` when P divides n, and `flag == thread_count`. |
| Ln2Serial.SerialCommandLine | week7/examPthreads/serial.c:26-27 | The program proceeds iff exactly one user argument is given, and n is `strtoll` of it. |
| Ln2Serial.SerialSum | week7/examPthreads/serial.c:23-39 | `sum == Σ_{i=1}^{n-1} (-1)^(i+1)·term(i)`, with `sign == (-1)^(i+1)` at every index. The sum is 0 when n <= 1. |
| Ln2Parallel.ParallelCommandLine | week7/examPthreads/parallel.c:37-39 | The command line is accepted iff argc == 3, giving n = `strtoll(argv[1])` and p = `atoi(argv[2])`, neither range-checked. |
| Ln2Parallel.InitRange | week7/examPthreads/parallel.c:84-95 | `my_sign == (-1)^(first_i+1)` after the adjustment. Only a start of 0 is changed, and it becomes 1. `last_i` is the block end. |
| Ln2Parallel.LocalLnSum | week7/examPthreads/parallel.c:97-99 | `my_sum` is the sum of (-1)^(i+1)·term(i) over `[first_i, last_i)`, with `my_sign == (-1)^(i+1)` at each index. |
| Ln2Parallel.LnPartialStep | week7/examPthreads/parallel.c:84-99 | A rank's private sum extends the series from its block start to the next rank's block start, including rank 0 whose start moves to 1. |
| Ln2Parallel.LnPartialsTotal | week7/examPthreads/parallel.c:84-99 | The private sums of ranks 0..k-1 add up to the series over `[1, (n/p)·k)`, for every sign of n. |
| Ln2Parallel.IteratedIndices | week7/examPthreads/parallel.c:92-97 | The ranks iterate exactly the indices `[1, (n/p)·p)`. |
| Ln2Parallel.ParallelMatchesSerial | week7/examPthreads/parallel.c:84-103 | When p divides n, the private sums added in any order equal the serial loop's sum over `[1, n)`. |
| Ln2Parallel.FewerTermsThanThreads | week7/examPthreads/parallel.c:84-99 | With `0 <= n < p` every rank iterates nothing, including rank 0 with `first_i = 1 > last_i = 0`. |
| Ln2Parallel.LnShared.constructor | week7/examPthreads/parallel.c:34 | `sum = 0.0`. |
| Ln2Parallel.LnShared.ParallelWork | week7/examPthreads/parallel.c:79-106 | `sum` grows once, by the rank's private sum. |
| Ln2Parallel.LnShared.Run | week7/examPthreads/parallel.c:53-62 | In any schedule: `sum` grows by the series over `[1, (n/p)·p)`, which is the serial reference when p divides n. With p <= 0 no thread runs and `sum` is unchanged. |

## Left out

- Thread creation, joining and blocking: mutexes, condition variables and semaphores. The drivers run whole threads in a given order, and the barriers are counter state machines.
- Histogram.CountPhase and VectorRotate.TransformPhase run the phase before the barrier in rank order 0..P-1 only. In the source, which thread arrives last and releases the others is not fixed (week7/histogramPractice/histogram_pthreads.c:230-248; week6/assignmentPthreads/parallel_vector_rotate.c:180-192). Nothing the model states depends on that order:
  - each rank writes only its own row of `local_bin_counts` (the frame of `ThreadCount`) or its own slots of `rotated_vectors` (`SlotsDisjoint`);
  - the barrier counter and the number of resets depend only on the number of arrivals (`PhaseCount`), so some arrival among the P is the one that releases the others.
- The two sides of each barrier are reduced to their counters:
  - a suspended thread is a count;
  - a post on `barrier_sem` is handed straight to a suspended thread;
  - the condvar wait loop `while (pthread_cond_wait(...) != 0);` re-tests the return code, not the count, so spurious wake-ups are not modelled.
  - `SemBarrier.Arrive` makes the final arrival's `sem_post(&count_sem)` and its P-1 posts on `barrier_sem` one atomic step. In the source, `count_sem` is released before those posts (week6/assignmentPthreads/parallel_vector_rotate.c:188-191). If the barrier were reused, a released thread could therefore re-arrive and take a post meant for the current phase. The program uses the barrier once, and the model says nothing about reusing the semaphore barrier.
- VERSION 1 of `threadPiSum` is modelled per thread (`ThreadPiSumV1`), but the term-by-term interleaving of several threads is not. It is compiled out (`VERSION 2`).
- Floating point: all values are exact reals.
  - Rounding is not modelled, including `float my_sum` against `double sum` in `pth_pi_mutex.c`.
  - Term values `1/(2i+1)` and `1/i` are the parameter `term`.
  - `computeRotationMatrix`, `multMatrixMatrix` and `multMatrixVector` are the parameter `rotate`. The model places no constraint on the product, so the `a[7]` used where `a[8]` is meant in `multMatrixMatrix` (week6/assignmentPthreads/parallel_vector_rotate.c:276-278) is outside it.
  - The `createBins` width computation is not modelled; the bin maxima are an input.
  - `generateData`, `srand` and `rand` are not modelled.
- Machine integers: `int start = n*rank`, `long`/`int` conversions and `atoi`/`strtol` overflow are not modelled; integers are unbounded.
- I/O and time are not modelled:
  - `readInputDatafile`, `printHistogram`, all `printf`, `recordTimingData`;
  - `getTime` and `GET_TIME`;
  - `usage`'s message and `exit`, which become a rejected result.
- `extractCommandLineArgs` of the histogram program is not modelled. It only checks `argc != 6` and converts the arguments. The driver takes the converted values.
- Histogram.RunHistogram: requires ordered bin maxima (`WellFormedBins`) and takes `data_count` as `|data| >= 0`. So two runs of the source, which does not check its arguments (week7/histogramPractice/histogram_pthreads.c:297-303), are outside the model:
  - `max_meas < min_meas`: `createBins` (365-369) produces decreasing maxima, and `findBin` then exits on every datum;
  - `data_count < 0`: every rank's range is empty (215-221), and the program prints `bin sum = 0`.
- `rotated_vectors` starts with whatever `malloc` returned. The model says nothing of slots at or above `3*(nv/P)*P`, except that they are unchanged.
- week6/sem_capacity.c and week9/lab3/pi_circ.c are not part of this model. The first is semaphore concurrency plus a CPU-burning loop; the second is a `rand_r` Monte-Carlo estimate.
