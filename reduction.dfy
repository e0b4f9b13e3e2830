/**
 * The algebra of the programs' reductions: a partial sum over an index range,
 * the sum of per-rank partial results taken in a scheduling order, and the
 * facts that make the final shared value independent of that order.
 * Floating-point values are modelled as exact reals.
 */
module Reduction {

  /** f(lo) + f(lo+1) + ... + f(hi-1), accumulated upwards as the loops do; 0 when hi <= lo. */
  function SumRange(f: int -> real, lo: int, hi: int): real
    decreases hi - lo
  {
    if hi <= lo then 0.0 else SumRange(f, lo, hi - 1) + f(hi - 1)
  }

  /** Adjacent ranges add up to their union. */
  lemma {:induction false} SumRangeSplit(f: int -> real, lo: int, mid: int, hi: int)
    requires lo <= mid <= hi
    ensures SumRange(f, lo, mid) + SumRange(f, mid, hi) == SumRange(f, lo, hi)
    decreases hi - mid
  {
    if mid < hi {
      SumRangeSplit(f, lo, mid, hi - 1);
    }
  }

  /** The ranks 0, 1, ..., k-1 in thread-creation order. */
  function Ranks(k: nat): (s: seq<int>)
    ensures |s| == k && forall i :: 0 <= i < k ==> s[i] == i
  {
    seq(k, i => i)
  }

  /** g(s[0]) + g(s[1]) + ...: the shared value after the ranks in `s` each combined g(rank). */
  function SumBy(g: int -> real, s: seq<int>): real
    decreases |s|
  {
    if s == [] then 0.0 else SumBy(g, s[..|s| - 1]) + g(s[|s| - 1])
  }

  /** Combining rank k-1 after ranks 0..k-2. */
  lemma SumByRanksStep(g: int -> real, k: nat)
    requires k > 0
    ensures SumBy(g, Ranks(k)) == SumBy(g, Ranks(k - 1)) + g(k - 1)
  {
    assert Ranks(k)[..k - 1] == Ranks(k - 1);
  }

  /** Combining one more rank adds its partial result. */
  lemma SumByStep(g: int -> real, s: seq<int>, j: int)
    requires 0 <= j < |s|
    ensures SumBy(g, s[..j + 1]) == SumBy(g, s[..j]) + g(s[j])
  {
    assert s[..j + 1][..j] == s[..j];
  }

  lemma {:induction false} SumByAppend(g: int -> real, a: seq<int>, b: seq<int>)
    ensures SumBy(g, a + b) == SumBy(g, a) + SumBy(g, b)
    decreases |b|
  {
    if b == [] {
      assert a + b == a;
    } else {
      assert (a + b)[..|a + b| - 1] == a + b[..|b| - 1];
      SumByAppend(g, a, b[..|b| - 1]);
    }
  }

  lemma SumByRemove(g: int -> real, s: seq<int>, j: int)
    requires 0 <= j < |s|
    ensures SumBy(g, s) == SumBy(g, s[..j] + s[j + 1..]) + g(s[j])
  {
    var a, x, b := s[..j], s[j], s[j + 1..];
    assert s == a + ([x] + b);
    SumByAppend(g, a, [x] + b);
    SumByAppend(g, [x], b);
    SumByAppend(g, a, b);
    assert SumBy(g, [x]) == g(x) by {
      assert [x][..0] == [];
    }
  }

  /** The last rank of `s` occurs in its permutation `t`; removing it from both keeps them permutations. */
  lemma MatchLast(s: seq<int>, t: seq<int>) returns (j: int)
    requires multiset(s) == multiset(t) && |s| > 0
    ensures 0 <= j < |t| && t[j] == s[|s| - 1]
    ensures multiset(s[..|s| - 1]) == multiset(t[..j] + t[j + 1..])
  {
    var x := s[|s| - 1];
    assert s == s[..|s| - 1] + [x];
    assert x in multiset(t);
    j :| 0 <= j < |t| && t[j] == x;
    assert t == t[..j] + [t[j]] + t[j + 1..];
    assert multiset(t[..j] + t[j + 1..]) == multiset(t) - multiset{x};
    assert multiset(s[..|s| - 1]) == multiset(s) - multiset{x};
  }

  /** The combined value does not depend on the order in which the ranks combine. */
  lemma {:induction false} SumByPermutation(g: int -> real, s: seq<int>, t: seq<int>)
    requires multiset(s) == multiset(t)
    ensures SumBy(g, s) == SumBy(g, t)
    decreases |s|
  {
    if s == [] {
      assert |t| == |multiset(t)| == 0;
    } else {
      var j := MatchLast(s, t);
      SumByPermutation(g, s[..|s| - 1], t[..j] + t[j + 1..]);
      SumByRemove(g, t, j);
    }
  }

  /** The partial result of rank r when it owns the block `[bs*r, bs*r + bs)`. */
  function BlockPartial(f: int -> real, bs: int): int -> real
  {
    r => SumRange(f, bs * r, bs * r + bs)
  }

  /** The partial results of ranks 0..k-1 add up to the sum over `[0, bs*k)`. */
  lemma {:induction false} BlockPartialsTotal(f: int -> real, bs: int, k: nat)
    requires bs >= 0
    ensures SumBy(BlockPartial(f, bs), Ranks(k)) == SumRange(f, 0, bs * k)
  {
    if k > 0 {
      BlockPartialsTotal(f, bs, k - 1);
      SumByRanksStep(BlockPartial(f, bs), k);
      assert 0 <= bs * (k - 1) <= bs * (k - 1) + bs == bs * k;
      SumRangeSplit(f, 0, bs * (k - 1), bs * k);
    }
  }

  /** A schedule in which every rank 0..k-1 combines exactly once, in any order. */
  predicate IsSchedule(order: seq<int>, k: nat)
  {
    multiset(order) == multiset(Ranks(k))
  }

  /** Whatever the schedule, the combined value is the sum of all block partials. */
  lemma ScheduledBlockTotal(f: int -> real, bs: int, order: seq<int>, k: nat)
    requires bs >= 0 && IsSchedule(order, k)
    ensures SumBy(BlockPartial(f, bs), order) == SumRange(f, 0, bs * k)
  {
    SumByPermutation(BlockPartial(f, bs), order, Ranks(k));
    BlockPartialsTotal(f, bs, k);
  }

  /** A schedule holds k entries, each a rank below k. */
  lemma ScheduleRanks(order: seq<int>, k: nat)
    requires IsSchedule(order, k)
    ensures |order| == k
    ensures forall j :: 0 <= j < |order| ==> 0 <= order[j] < k
  {
    assert |order| == |multiset(order)| == |multiset(Ranks(k))| == k;
    forall j | 0 <= j < |order|
      ensures 0 <= order[j] < k
    {
      assert order[j] in multiset(Ranks(k));
    }
  }
}
