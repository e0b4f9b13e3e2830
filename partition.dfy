/**
 * Block partitioning of a workload by thread rank, as every program computes
 * it inline: `n = total / P; start = n * rank; end = start + n`, where `/` is
 * C's truncating division. Two programs then clamp `end` to `total`. No rank
 * is given the remainder: the last `total % P` items belong to nobody.
 */
module Partition {
  import opened CArith

  /** Items per rank (`n`, `my_n`, `num_vectors/num_threads`). */
  function BlockSize(total: int, p: int): int
    requires p >= 1
  {
    TruncDiv(total, p)
  }

  /**
   * First index of rank `rank` (`start`, `first_i`, `my_first_i`). For ranks
   * 0..P it runs from 0 up to the covered prefix `(total/P)*P`.
   */
  function BlockStart(total: int, p: int, rank: int): (s: int)
    requires p >= 1
    ensures total >= 0 && 0 <= rank <= p ==> 0 <= s <= BlockSize(total, p) * p <= total
  {
    var n := BlockSize(total, p);
    if total >= 0 && 0 <= rank <= p then
      MulMonotone(n, rank, p);
      n * rank
    else
      n * rank
  }

  /**
   * One past the last index of rank `rank` (`end`, `last_i`, `my_last_i`):
   * where the next rank starts.
   */
  function BlockEnd(total: int, p: int, rank: int): (e: int)
    requires p >= 1
    ensures e == BlockStart(total, p, rank + 1)
  {
    BlockStart(total, p, rank) + BlockSize(total, p)
  }

  /** The end after the guard `if (end > total) end = total;`. */
  function ClampedEnd(total: int, p: int, rank: int): int
    requires p >= 1
  {
    if BlockEnd(total, p, rank) > total then total else BlockEnd(total, p, rank)
  }

  /** The number of leading indices that some rank visits. */
  function CoveredPrefix(total: int, p: int): int
    requires p >= 1
  {
    BlockSize(total, p) * p
  }

  /** The clamp never changes a rank's end. */
  lemma ClampNeverFires(total: int, p: int, rank: int)
    requires total >= 0 && p >= 1 && 0 <= rank < p
    ensures ClampedEnd(total, p, rank) == BlockEnd(total, p, rank)
  {
  }

  /** Blocks of different ranks are disjoint: a lower rank ends before a higher one starts. */
  lemma BlocksOrdered(total: int, p: int, r1: int, r2: int)
    requires total >= 0 && p >= 1 && r1 < r2
    ensures BlockEnd(total, p, r1) <= BlockStart(total, p, r2)
  {
    var n := BlockSize(total, p);
    assert BlockEnd(total, p, r1) == n * (r1 + 1);
    MulMonotone(n, r1 + 1, r2);
  }

  /** The rank that owns index `i` of the covered prefix. */
  lemma Owner(total: int, p: int, i: int) returns (r: int)
    requires total >= 0 && p >= 1 && 0 <= i < CoveredPrefix(total, p)
    ensures 0 <= r < p && BlockStart(total, p, r) <= i < BlockEnd(total, p, r)
  {
    var n := BlockSize(total, p);
    assert n > 0;
    r := i / n;
    assert n * r <= i < n * r + n;
    if r >= p {
      MulMonotone(n, p, r);
    }
  }

  /** The ranks together visit exactly the indices `[0, (total/P)*P)`. */
  lemma Coverage(total: int, p: int, i: int)
    requires total >= 0 && p >= 1
    ensures (exists r :: 0 <= r < p && BlockStart(total, p, r) <= i < BlockEnd(total, p, r))
        <==> 0 <= i < CoveredPrefix(total, p)
  {
    if 0 <= i < CoveredPrefix(total, p) {
      var r := Owner(total, p, i);
    }
  }

  /** The covered prefix leaves out exactly the last `total % P` items. */
  lemma RemainderLeftOut(total: int, p: int)
    requires total >= 0 && p >= 1
    ensures CoveredPrefix(total, p) == total - total % p
  {
  }

  /** When P divides the total, the ranks cover all of `[0, total)` (and nothing, for a negative total). */
  lemma ExactWhenDivisible(total: int, p: int)
    requires p >= 1 && total % p == 0
    ensures CoveredPrefix(total, p) == total
  {
    if total < 0 {
      EuclidUnique(-total, p, -(total / p), 0);
    }
  }

  /** With fewer items than ranks, every rank gets the empty range `[0, 0)`. */
  lemma FewerItemsThanRanks(total: int, p: int, rank: int)
    requires 0 <= total < p
    ensures BlockStart(total, p, rank) == 0 && BlockEnd(total, p, rank) == 0
  {
    EuclidUnique(total, p, 0, total);
  }

  /** A negative total (unchecked in one program) gives every rank an empty range. */
  lemma NegativeTotalEmpty(total: int, p: int, rank: int)
    requires total < 0 && p >= 1 && rank >= 0
    ensures BlockEnd(total, p, rank) <= BlockStart(total, p, rank)
  {
  }

  /** Ten items on three ranks: `[0,3)`, `[3,6)`, `[6,9)`; item 9 is never visited. */
  lemma TenItemsOnThreeRanks()
    ensures BlockStart(10, 3, 0) == 0 && BlockEnd(10, 3, 0) == 3
    ensures BlockStart(10, 3, 1) == 3 && BlockEnd(10, 3, 1) == 6
    ensures BlockStart(10, 3, 2) == 6 && ClampedEnd(10, 3, 2) == 9
    ensures CoveredPrefix(10, 3) == 9
  {
  }

  lemma MulMonotone(a: int, b: int, c: int)
    requires a >= 0 && b <= c
    ensures a * b <= a * c
  {
    assert a * c - a * b == a * (c - b);
  }
}
