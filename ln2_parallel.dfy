/**
 * The threaded ln(2) estimate of week7/examPthreads/parallel.c. `ParallelWork`
 * gives rank r the block `[(n/p)·r, (n/p)·r + n/p)`, sets `my_sign` from the
 * parity of `first_i`, moves a start of 0 to 1 (the series has no term 0)
 * and flips the sign with it, sums its block privately and adds the result
 * to the shared `sum` once, under a mutex. The term value 1/i is the
 * abstract parameter `term`.
 */
module Ln2Parallel {
  import opened Wrappers
  import opened CArith
  import opened Partition
  import opened Reduction
  import opened Signs
  import opened Ln2Serial

  /**
   * main's argument check: exactly two user arguments (argc == 3), n read
   * with strtoll (`toLong`) and p with atoi (`toInt`); neither is
   * range-checked. None is the `Usage` exit.
   */
  function ParallelCommandLine(argv: seq<string>, toLong: string -> int, toInt: string -> int)
    : (r: Option<(int, int)>)
    ensures r.Some? <==> |argv| == 3
    ensures r.Some? ==> r.value == (toLong(argv[1]), toInt(argv[2]))
  {
    if |argv| != 3 then None else Some((toLong(argv[1]), toInt(argv[2])))
  }

  /** Rank r's first index after the adjustment: a start of 0 becomes 1. */
  function AdjustedStart(n: int, p: int, rank: int): int
    requires p >= 1
  {
    if BlockStart(n, p, rank) == 0 then 1 else BlockStart(n, p, rank)
  }

  /**
   * The start of `ParallelWork`: the block bounds, the sign from the parity
   * of `first_i` (C remainder) and the 0-to-1 adjustment with its sign flip.
   */
  method InitRange(n: int, p: int, rank: int) returns (firstI: int, lastI: int, mySign: real)
    requires p >= 1 && 0 <= rank < p
    ensures firstI == AdjustedStart(n, p, rank) && lastI == BlockEnd(n, p, rank)
    ensures mySign == NegOnePow(firstI + 1)
    ensures firstI != BlockStart(n, p, rank) ==> BlockStart(n, p, rank) == 0 && firstI == 1
  {
    var myN := TruncDiv(n, p);
    firstI := myN * rank;
    lastI := firstI + myN;
    if TruncRem(firstI, 2) == 0 {
      mySign := -1.0;
    } else {
      mySign := 1.0;
    }
    NegOnePowParity(firstI + 1);
    if firstI == 0 {
      firstI := 1;
      mySign := -mySign;
      NegOnePowNext(1);
    }
  }

  /** The private loop: `my_sum` over `[firstI, lastI)`, with `my_sign` negated per term. */
  method LocalLnSum(term: int -> real, firstI: int, lastI: int, mySign: real) returns (mySum: real)
    requires mySign == NegOnePow(firstI + 1)
    ensures mySum == SumRange(LnSummand(term), firstI, lastI)
  {
    mySum := 0.0;
    var sign := mySign;
    var i := firstI;
    while i < lastI
      invariant firstI <= i && (i <= lastI || i == firstI)
      invariant sign == NegOnePow(i + 1)
      invariant mySum == SumRange(LnSummand(term), firstI, i)
    {
      assert SumRange(LnSummand(term), firstI, i + 1) == SumRange(LnSummand(term), firstI, i) + sign * term(i);
      mySum := mySum + sign * term(i);
      NegOnePowNext(i + 1);
      i, sign := i + 1, -sign;
    }
  }

  /** Rank r's private sum `my_sum`, over its adjusted block. */
  function LnPartial(term: int -> real, n: int, p: int): int -> real
    requires p >= 1
  {
    r => SumRange(LnSummand(term), AdjustedStart(n, p, r), BlockEnd(n, p, r))
  }

  /** Rank r's private sum extends the series from its start to the next rank's start. */
  lemma LnPartialStep(term: int -> real, n: int, p: int, r: int)
    requires p >= 1 && 0 <= r
    ensures SumRange(LnSummand(term), 1, BlockStart(n, p, r)) + LnPartial(term, n, p)(r)
         == SumRange(LnSummand(term), 1, BlockStart(n, p, r + 1))
  {
    var f, bs := LnSummand(term), BlockSize(n, p);
    assert BlockStart(n, p, r) == bs * r && BlockStart(n, p, r + 1) == bs * r + bs;
    if r == 0 {
      assert BlockStart(n, p, 0) == 0;
    } else if bs >= 1 {
      MulMonotone(bs, 1, r);
      SumRangeSplit(f, 1, bs * r, bs * r + bs);
    } else if bs < 0 {
      assert bs * r < 0 by { MulMonotone(-bs, 1, r); }
    }
  }

  /** The private sums of ranks 0..k-1 add up to the series over `[1, (n/p)·k)`. */
  lemma {:induction false} LnPartialsTotal(term: int -> real, n: int, p: int, k: nat)
    requires p >= 1
    ensures SumBy(LnPartial(term, n, p), Ranks(k)) == SumRange(LnSummand(term), 1, BlockStart(n, p, k))
  {
    if k > 0 {
      LnPartialsTotal(term, n, p, k - 1);
      SumByRanksStep(LnPartial(term, n, p), k);
      LnPartialStep(term, n, p, k - 1);
    }
  }

  /** The ranks together iterate exactly the indices `[1, (n/p)·p)`. */
  lemma IteratedIndices(n: int, p: int, i: int)
    requires p >= 1
    ensures (exists r :: 0 <= r < p && AdjustedStart(n, p, r) <= i < BlockEnd(n, p, r))
        <==> 1 <= i < CoveredPrefix(n, p)
  {
    if n >= 0 {
      Coverage(n, p, i);
      if 1 <= i < CoveredPrefix(n, p) {
        var r :| 0 <= r < p && BlockStart(n, p, r) <= i < BlockEnd(n, p, r);
        assert AdjustedStart(n, p, r) <= i;
      }
    } else {
      forall r | 0 <= r < p
        ensures BlockEnd(n, p, r) <= AdjustedStart(n, p, r)
      {
        NegativeTotalEmpty(n, p, r);
      }
      assert CoveredPrefix(n, p) <= 0;
    }
  }

  /** When p divides n, the ranks' private sums add up to the serial reference sum. */
  lemma ParallelMatchesSerial(term: int -> real, n: int, p: int, order: seq<int>)
    requires p >= 1 && n % p == 0 && IsSchedule(order, p)
    ensures SumBy(LnPartial(term, n, p), order) == SumRange(LnSummand(term), 1, n)
  {
    SumByPermutation(LnPartial(term, n, p), order, Ranks(p));
    LnPartialsTotal(term, n, p, p);
    ExactWhenDivisible(n, p);
  }

  /** With fewer terms than threads every rank, rank 0 included, iterates nothing. */
  lemma FewerTermsThanThreads(term: int -> real, n: int, p: int, rank: int)
    requires 0 <= n < p && 0 <= rank < p
    ensures BlockEnd(n, p, rank) == 0 && AdjustedStart(n, p, rank) == 1
    ensures LnPartial(term, n, p)(rank) == 0.0
  {
    FewerItemsThanRanks(n, p, rank);
  }

  /** The globals `n`, `p` and `sum`. */
  class LnShared {
    const n: int
    const p: int
    const term: int -> real
    var sum: real

    /** The globals after main's argument handling and `sum = 0.0`. */
    constructor (n: int, p: int, term: int -> real)
      ensures this.n == n && this.p == p && this.term == term && sum == 0.0
    {
      this.n, this.p, this.term := n, p, term;
      sum := 0.0;
    }

    /** `ParallelWork`: a private sum over the rank's block, added to `sum` once. */
    method ParallelWork(rank: int)
      requires p >= 1 && 0 <= rank < p
      modifies this
      ensures sum == old(sum) + LnPartial(term, n, p)(rank)
    {
      var firstI, lastI, mySign := InitRange(n, p, rank);
      var mySum := LocalLnSum(term, firstI, lastI, mySign);
      sum := sum + mySum;
    }

    /**
     * main's create/join loops: each of the p ranks runs `ParallelWork`
     * once, their critical sections in the order `order`; p <= 0 starts
     * no thread.
     */
    method Run(order: seq<int>)
      requires IsSchedule(order, if p >= 1 then p else 0)
      modifies this
      ensures p <= 0 ==> sum == old(sum)
      ensures p >= 1 ==> sum == old(sum) + SumRange(LnSummand(term), 1, CoveredPrefix(n, p))
      ensures p >= 1 && n % p == 0 ==> sum == old(sum) + SumRange(LnSummand(term), 1, n)
    {
      var k := if p >= 1 then p else 0;
      ScheduleRanks(order, k);
      if p >= 1 {
        for j := 0 to |order|
          invariant sum == old(sum) + SumBy(LnPartial(term, n, p), order[..j])
        {
          ParallelWork(order[j]);
          SumByStep(LnPartial(term, n, p), order, j);
        }
        assert order[..|order|] == order;
        SumByPermutation(LnPartial(term, n, p), order, Ranks(p));
        LnPartialsTotal(term, n, p, p);
        if n % p == 0 {
          ParallelMatchesSerial(term, n, p, order);
        }
      }
    }
  }
}
