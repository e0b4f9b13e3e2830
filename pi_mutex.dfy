/**
 * The π estimate of week5/labMutex/pth_pi_mutex.c: π = 4·(1 - 1/3 + 1/5 - ...).
 * `processCommandLine` validates p and n; `threadPiSum` gives rank r the terms
 * `[(n/p)·r, (n/p)·r + n/p)`, starts its sign `factor` from the parity of its
 * first index and negates it after every term; the shared `sum` and `flag`
 * are updated under a mutex. The term value 1/(2i+1) is the abstract
 * parameter `term`.
 */
module PiMutex {
  import opened Wrappers
  import opened CArith
  import opened Partition
  import opened Reduction
  import opened Signs

  /** `MAX_THREADS`. */
  const MaxThreads := 1024

  /** The validated command line: the thread count and the number of terms. */
  datatype Config = Config(threadCount: int, n: int)

  /**
   * `processCommandLine`: exactly two user arguments (argc == 3), a thread
   * count in [1, MAX_THREADS] and at least one term. `toLong` stands for
   * strtol/strtoll; None is the `usage` exit.
   */
  function ProcessCommandLine(argv: seq<string>, toLong: string -> int): (r: Option<Config>)
    ensures r.Some? <==> |argv| == 3 && 1 <= toLong(argv[1]) <= MaxThreads && toLong(argv[2]) >= 1
    ensures r.Some? ==> r.value == Config(toLong(argv[1]), toLong(argv[2]))
  {
    if |argv| != 3 then None
    else
      var threadCount := toLong(argv[1]);
      if threadCount <= 0 || threadCount > MaxThreads then None
      else
        var n := toLong(argv[2]);
        if n <= 0 then None else Some(Config(threadCount, n))
  }

  /** The check lets p = 1024 through, although the usage text asks for p < 1024. */
  lemma AcceptsMaxThreads(argv: seq<string>, toLong: string -> int)
    requires |argv| == 3 && toLong(argv[1]) == 1024 && toLong(argv[2]) >= 1
    ensures ProcessCommandLine(argv, toLong) == Some(Config(1024, toLong(argv[2])))
  {
  }

  /** The signed series term (-1)^i · term(i) that `threadPiSum` adds for index i. */
  function PiSummand(term: int -> real): int -> real
  {
    i => NegOnePow(i) * term(i)
  }

  /** The starting `factor`: +1 when `my_first_i % 2 == 0` (C remainder), otherwise -1. */
  method InitialFactor(myFirstI: int) returns (factor: real)
    ensures factor == NegOnePow(myFirstI)
    ensures factor == 1.0 <==> myFirstI % 2 == 0
  {
    if TruncRem(myFirstI, 2) == 0 {
      factor := 1.0;
    } else {
      factor := -1.0;
    }
    NegOnePowParity(myFirstI);
  }

  /** VERSION 2's private loop: `my_sum` over `[myFirstI, myLastI)`, with `factor` negated per term. */
  method LocalPiSum(term: int -> real, myFirstI: int, myLastI: int) returns (mySum: real)
    ensures mySum == SumRange(PiSummand(term), myFirstI, myLastI)
  {
    var factor := InitialFactor(myFirstI);
    mySum := 0.0;
    var i := myFirstI;
    while i < myLastI
      invariant myFirstI <= i && (i <= myLastI || i == myFirstI)
      invariant factor == NegOnePow(i)
      invariant mySum == SumRange(PiSummand(term), myFirstI, i)
    {
      mySum := mySum + factor * term(i);
      NegOnePowNext(i);
      i, factor := i + 1, -factor;
    }
  }

  /** Stepping a counter modulo m commutes with reducing it first. */
  lemma ModSucc(a: int, m: int)
    requires a >= 0 && m >= 1
    ensures (a % m + 1) % m == (a + 1) % m
  {
    var q, r := a / m, a % m;
    if r + 1 < m {
      EuclidUnique(a + 1, m, q, r + 1);
      EuclidUnique(r + 1, m, 0, r + 1);
    } else {
      EuclidUnique(a + 1, m, q + 1, 0);
      EuclidUnique(r + 1, m, 1, 0);
    }
  }

  /** `flag` after k executions of `flag = (flag + 1) % m` from f0: the counter advanced by k, modulo m. */
  ghost function FlagAfter(f0: int, k: nat, m: int): (r: int)
    requires 0 <= f0 < m
    ensures 0 <= r < m && r == (f0 + k) % m
  {
    if k == 0 then
      EuclidUnique(f0, m, 0, f0);
      f0
    else
      ModSucc(f0 + k - 1, m);
      (FlagAfter(f0, k - 1, m) + 1) % m
  }

  /** The shared state of the program: the globals `thread_count`, `n`, `sum` and `flag`. */
  class PiShared {
    const threadCount: int
    const n: int
    const term: int -> real
    var sum: real
    var flag: int

    /** The configuration is one `processCommandLine` accepted. */
    ghost predicate Valid()
    {
      1 <= threadCount <= MaxThreads && n >= 1
    }

    /** The globals after `processCommandLine` and main's `sum = 0.0; flag = 0;`. */
    constructor (cfg: Config, term: int -> real)
      requires 1 <= cfg.threadCount <= MaxThreads && cfg.n >= 1
      ensures Valid()
      ensures threadCount == cfg.threadCount && n == cfg.n && this.term == term
      ensures sum == 0.0 && flag == 0
    {
      threadCount, n, this.term := cfg.threadCount, cfg.n, term;
      sum, flag := 0.0, 0;
    }

    /** Rank r's own block of terms, `[my_first_i, my_last_i)`. */
    function RankTerms(rank: int): real
      requires Valid()
    {
      SumRange(PiSummand(term), BlockStart(n, threadCount, rank), BlockEnd(n, threadCount, rank))
    }

    /** `threadPiSum` as compiled (VERSION 2): a private sum, then one update of `sum` and `flag`. */
    method ThreadPiSum(rank: int)
      requires Valid() && 0 <= rank < threadCount
      modifies this
      ensures sum == old(sum) + RankTerms(rank)
      ensures flag == old(flag) + 1
    {
      var myN := TruncDiv(n, threadCount);
      var myFirstI := myN * rank;
      var myLastI := myFirstI + myN;
      var mySum := LocalPiSum(term, myFirstI, myLastI);
      sum := sum + mySum;
      flag := flag + 1;
    }

    /**
     * `threadPiSum` under VERSION 1: every term goes into `sum` inside the
     * critical section, and `flag` advances modulo `thread_count` per term.
     */
    method ThreadPiSumV1(rank: int)
      requires Valid() && 0 <= rank < threadCount && 0 <= flag < threadCount
      modifies this
      ensures sum == old(sum) + RankTerms(rank)
      ensures 0 <= flag < threadCount
      ensures flag == (old(flag) + BlockSize(n, threadCount)) % threadCount
    {
      var myN := TruncDiv(n, threadCount);
      var myFirstI := myN * rank;
      var myLastI := myFirstI + myN;
      AddTermsShared(myFirstI, myLastI);
    }

    /** VERSION 1's critical section for one term: `sum += factor/(2*i+1); flag = (flag+1) % thread_count;` */
    method AddTerm(factor: real, i: int)
      requires Valid() && 0 <= flag < threadCount
      modifies this
      ensures sum == old(sum) + factor * term(i)
      ensures flag == (old(flag) + 1) % threadCount && 0 <= flag < threadCount
    {
      sum := sum + factor * term(i);
      flag := (flag + 1) % threadCount;
    }

    /** VERSION 1's loop over `[myFirstI, myLastI)`, one locked update of `sum` and `flag` per term. */
    method AddTermsShared(myFirstI: int, myLastI: int)
      requires Valid() && myFirstI <= myLastI && 0 <= flag < threadCount
      modifies this
      ensures sum == old(sum) + SumRange(PiSummand(term), myFirstI, myLastI)
      ensures 0 <= flag < threadCount
      ensures flag == (old(flag) + (myLastI - myFirstI)) % threadCount
    {
      var factor := InitialFactor(myFirstI);
      var i := myFirstI;
      ghost var sum0, flag0 := sum, flag;
      while i < myLastI
        invariant myFirstI <= i <= myLastI
        invariant factor == NegOnePow(i)
        invariant sum == sum0 + SumRange(PiSummand(term), myFirstI, i)
        invariant flag == FlagAfter(flag0, i - myFirstI, threadCount)
      {
        AddNextTerm(factor, i, myFirstI, sum0, flag0);
        NegOnePowNext(i);
        i, factor := i + 1, -factor;
      }
    }

    /** One iteration of VERSION 1's loop: the partial sum and the counter both advance by one term. */
    method AddNextTerm(factor: real, i: int, ghost lo: int, ghost sum0: real, ghost flag0: int)
      requires Valid() && lo <= i && 0 <= flag0 < threadCount
      requires factor == NegOnePow(i)
      requires sum == sum0 + SumRange(PiSummand(term), lo, i)
      requires flag == FlagAfter(flag0, i - lo, threadCount)
      modifies this
      ensures sum == sum0 + SumRange(PiSummand(term), lo, i + 1)
      ensures flag == FlagAfter(flag0, i + 1 - lo, threadCount)
    {
      assert SumRange(PiSummand(term), lo, i + 1) == SumRange(PiSummand(term), lo, i) + factor * term(i);
      AddTerm(factor, i);
    }

    /**
     * main from `sum = 0.0` to `sum = 4.0*sum`: every rank runs
     * `threadPiSum` once, their critical sections in the order `order`.
     */
    method Run(order: seq<int>)
      requires Valid() && IsSchedule(order, threadCount)
      modifies this
      ensures sum == 4.0 * SumRange(PiSummand(term), 0, CoveredPrefix(n, threadCount))
      ensures n % threadCount == 0 ==> sum == 4.0 * SumRange(PiSummand(term), 0, n)
      ensures flag == threadCount
    {
      sum, flag := 0.0, 0;
      var bs := BlockSize(n, threadCount);
      ScheduleRanks(order, threadCount);
      for j := 0 to |order|
        invariant sum == SumBy(BlockPartial(PiSummand(term), bs), order[..j])
        invariant flag == j
      {
        ThreadPiSum(order[j]);
        SumByStep(BlockPartial(PiSummand(term), bs), order, j);
      }
      assert order[..|order|] == order;
      ScheduledBlockTotal(PiSummand(term), bs, order, threadCount);
      if n % threadCount == 0 {
        ExactWhenDivisible(n, threadCount);
      }
      sum := 4.0 * sum;
    }
  }

}
