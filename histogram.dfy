/**
 * The histogram program: `findBin`'s binary search over the bin maxima, each
 * rank's count of its block into its own row of `local_bin_counts`, the
 * barrier, rank 0's merge of the rows into `bin_counts`, and `main`'s sum of
 * the bins. Measurements are reals; only `<` and `>=` are applied to them.
 */
module Histogram {
  import opened Wrappers
  import opened CArith
  import opened Partition
  import opened Barrier

  /** Lower edge of bin i: `min_meas` for bin 0, otherwise the maximum of bin i-1. */
  function BinMin(binMaxes: seq<real>, minMeas: real, i: int): real
    requires 0 <= i < |binMaxes|
  {
    if i == 0 then minMeas else binMaxes[i - 1]
  }

  /** `x` belongs to bin i: `bin_maxes[i-1] <= x < bin_maxes[i]`, reading `bin_maxes[-1]` as `min_meas`. */
  predicate InBin(binMaxes: seq<real>, minMeas: real, i: int, x: real)
  {
    0 <= i < |binMaxes| && BinMin(binMaxes, minMeas, i) <= x < binMaxes[i]
  }

  /** Bins laid out in order: nondecreasing maxima, the first at or above `min_meas`. */
  predicate WellFormedBins(binMaxes: seq<real>, minMeas: real)
  {
    && (|binMaxes| > 0 ==> minMeas <= binMaxes[0])
    && forall i, j :: 0 <= i < j < |binMaxes| ==> binMaxes[i] <= binMaxes[j]
  }

  /** The measurements the bins can hold: `min_meas <= x < bin_maxes[bin_count-1]`. */
  predicate InRange(binMaxes: seq<real>, minMeas: real, x: real)
  {
    |binMaxes| > 0 && minMeas <= x < binMaxes[|binMaxes| - 1]
  }

  /** Bins do not overlap: a measurement belongs to at most one bin. */
  lemma BinUnique(binMaxes: seq<real>, minMeas: real, i: int, j: int, x: real)
    requires WellFormedBins(binMaxes, minMeas)
    requires InBin(binMaxes, minMeas, i, x) && InBin(binMaxes, minMeas, j, x)
    ensures i == j
  {
  }

  /** The bin of a measurement in range. */
  lemma {:induction false} BinOf(binMaxes: seq<real>, minMeas: real, x: real) returns (i: int)
    requires WellFormedBins(binMaxes, minMeas) && InRange(binMaxes, minMeas, x)
    ensures InBin(binMaxes, minMeas, i, x)
    decreases |binMaxes|
  {
    var last := |binMaxes| - 1;
    if last == 0 || binMaxes[last - 1] <= x {
      i := last;
    } else {
      var prefix := binMaxes[..last];
      assert InRange(prefix, minMeas, x);
      i := BinOf(prefix, minMeas, x);
      assert BinMin(prefix, minMeas, i) == BinMin(binMaxes, minMeas, i);
    }
  }

  /** Bins cover their range and nothing else. */
  lemma BinExists(binMaxes: seq<real>, minMeas: real, x: real)
    requires WellFormedBins(binMaxes, minMeas)
    ensures InRange(binMaxes, minMeas, x) <==> exists i :: InBin(binMaxes, minMeas, i, x)
  {
    if InRange(binMaxes, minMeas, x) {
      var i := BinOf(binMaxes, minMeas, x);
    }
    if i :| InBin(binMaxes, minMeas, i, x) {
      var last := |binMaxes| - 1;
      assert minMeas <= BinMin(binMaxes, minMeas, i);
      assert binMaxes[i] <= binMaxes[last];
    }
  }

  /**
   * `findBin`: binary search for the bin of `x`. None is the "doesn't belong
   * to a bin" exit; it happens exactly when `x` is out of range.
   */
  method FindBin(x: real, binMaxes: seq<real>, minMeas: real) returns (r: Option<int>)
    requires WellFormedBins(binMaxes, minMeas)
    ensures r.Some? ==> InBin(binMaxes, minMeas, r.value, x)
    ensures r.None? <==> !InRange(binMaxes, minMeas, x)
  {
    BinExists(binMaxes, minMeas, x);
    var bottom, top := 0, |binMaxes| - 1;
    while bottom <= top
      invariant 0 <= bottom && top < |binMaxes| && bottom <= top + 1
      invariant forall k :: InBin(binMaxes, minMeas, k, x) ==> bottom <= k <= top
      decreases top - bottom
    {
      var mid := (bottom + top) / 2;
      var binMax := binMaxes[mid];
      var binMin := if mid == 0 then minMeas else binMaxes[mid - 1];
      if x >= binMax {
        bottom := mid + 1;
      } else if x < binMin {
        top := mid - 1;
      } else {
        return Some(mid);
      }
    }
    return None;
  }

  /** How many of `data[lo..hi)` fall in bin b. */
  function CountIn(data: seq<real>, binMaxes: seq<real>, minMeas: real, b: int, lo: int, hi: int): nat
    requires 0 <= lo && hi <= |data|
    decreases hi - lo
  {
    if hi <= lo then 0
    else CountIn(data, binMaxes, minMeas, b, lo, hi - 1)
         + (if InBin(binMaxes, minMeas, b, data[hi - 1]) then 1 else 0)
  }

  /** The histogram of `data[lo..hi)`: one count per bin. */
  function HistogramOf(data: seq<real>, binMaxes: seq<real>, minMeas: real, lo: int, hi: int): (h: seq<int>)
    requires 0 <= lo && hi <= |data|
    ensures |h| == |binMaxes|
  {
    seq(|binMaxes|, b requires 0 <= b < |binMaxes| => CountIn(data, binMaxes, minMeas, b, lo, hi))
  }

  /** Sum of a sequence of counts, from the front, as `main` adds up the bins. */
  function Total(s: seq<int>): int
  {
    if s == [] then 0 else Total(s[..|s| - 1]) + s[|s| - 1]
  }

  /** Adding one to a single entry adds one to the total. */
  lemma {:induction false} TotalBump(s: seq<int>, t: seq<int>, j: int)
    requires |s| == |t| && 0 <= j < |s|
    requires forall b :: 0 <= b < |s| ==> t[b] == s[b] + (if b == j then 1 else 0)
    ensures Total(t) == Total(s) + 1
    decreases |s|
  {
    var n := |s| - 1;
    if j < n {
      TotalBump(s[..n], t[..n], j);
    } else {
      assert s[..n] == t[..n];
    }
  }

  /** Adjacent ranges of data add up bin by bin. */
  lemma {:induction false} CountSplit(data: seq<real>, binMaxes: seq<real>, minMeas: real, b: int, lo: int, mid: int, hi: int)
    requires 0 <= lo <= mid <= hi <= |data|
    ensures CountIn(data, binMaxes, minMeas, b, lo, mid) + CountIn(data, binMaxes, minMeas, b, mid, hi)
         == CountIn(data, binMaxes, minMeas, b, lo, hi)
    decreases hi - mid
  {
    if mid < hi {
      CountSplit(data, binMaxes, minMeas, b, lo, mid, hi - 1);
    }
  }

  /** When every measurement of `data[lo..hi)` is in range, the histogram counts each exactly once. */
  lemma {:induction false} HistogramTotal(data: seq<real>, binMaxes: seq<real>, minMeas: real, lo: int, hi: int)
    requires WellFormedBins(binMaxes, minMeas)
    requires 0 <= lo <= hi <= |data|
    requires forall i :: lo <= i < hi ==> InRange(binMaxes, minMeas, data[i])
    ensures Total(HistogramOf(data, binMaxes, minMeas, lo, hi)) == hi - lo
    decreases hi - lo
  {
    var h := HistogramOf(data, binMaxes, minMeas, lo, hi);
    if lo == hi {
      ZeroTotal(h);
    } else {
      HistogramTotal(data, binMaxes, minMeas, lo, hi - 1);
      var x := data[hi - 1];
      var j := BinOf(binMaxes, minMeas, x);
      var h' := HistogramOf(data, binMaxes, minMeas, lo, hi - 1);
      forall b | 0 <= b < |h|
        ensures h[b] == h'[b] + (if b == j then 1 else 0)
      {
        if InBin(binMaxes, minMeas, b, x) {
          BinUnique(binMaxes, minMeas, b, j, x);
        }
      }
      TotalBump(h', h, j);
    }
  }

  lemma {:induction false} ZeroTotal(s: seq<int>)
    requires forall b :: 0 <= b < |s| ==> s[b] == 0
    ensures Total(s) == 0
    decreases |s|
  {
    if s != [] {
      ZeroTotal(s[..|s| - 1]);
    }
  }

  /**
   * The counting phase of `threadWork` for one rank: compute the rank's block
   * (with the clamp) and count it into row `rank`. False is `findBin`'s exit
   * on a measurement out of range.
   */
  method ThreadCount(rank: int, numThreads: int, data: seq<real>, binMaxes: seq<real>, minMeas: real,
                     localBinCounts: array2<int>) returns (ok: bool)
    requires WellFormedBins(binMaxes, minMeas)
    requires 0 <= rank < numThreads
    requires localBinCounts.Length0 == numThreads && localBinCounts.Length1 == |binMaxes|
    modifies localBinCounts
    ensures ok <==> forall i :: BlockStart(|data|, numThreads, rank) <= i < BlockEnd(|data|, numThreads, rank)
                               ==> InRange(binMaxes, minMeas, data[i])
    ensures ok ==> forall b :: 0 <= b < |binMaxes| ==>
      localBinCounts[rank, b] == old(localBinCounts[rank, b])
        + CountIn(data, binMaxes, minMeas, b, BlockStart(|data|, numThreads, rank), BlockEnd(|data|, numThreads, rank))
    ensures forall t, b :: 0 <= t < numThreads && 0 <= b < |binMaxes| && t != rank ==>
      localBinCounts[t, b] == old(localBinCounts[t, b])
  {
    var n := TruncDiv(|data|, numThreads);
    var start := n * rank;
    var end := start + n;
    if end > |data| {
      end := |data|;
    }
    ClampNeverFires(|data|, numThreads, rank);
    ok := CountBlock(rank, start, end, data, binMaxes, minMeas, localBinCounts);
  }

  /** The loop `for (i = start; i < end; i++) local_bin_counts[rank][findBin(data[i])]++`. */
  method CountBlock(rank: int, start: int, end: int, data: seq<real>, binMaxes: seq<real>, minMeas: real,
                    localBinCounts: array2<int>) returns (ok: bool)
    requires WellFormedBins(binMaxes, minMeas)
    requires 0 <= rank < localBinCounts.Length0 && localBinCounts.Length1 == |binMaxes|
    requires 0 <= start <= end <= |data|
    modifies localBinCounts
    ensures ok <==> forall i :: start <= i < end ==> InRange(binMaxes, minMeas, data[i])
    ensures ok ==> forall b :: 0 <= b < |binMaxes| ==>
      localBinCounts[rank, b] == old(localBinCounts[rank, b]) + CountIn(data, binMaxes, minMeas, b, start, end)
    ensures forall t, b :: 0 <= t < localBinCounts.Length0 && 0 <= b < |binMaxes| && t != rank ==>
      localBinCounts[t, b] == old(localBinCounts[t, b])
  {
    var i := start;
    while i < end
      invariant start <= i <= end
      invariant forall j :: start <= j < i ==> InRange(binMaxes, minMeas, data[j])
      invariant forall b :: 0 <= b < |binMaxes| ==>
        localBinCounts[rank, b] == old(localBinCounts[rank, b]) + CountIn(data, binMaxes, minMeas, b, start, i)
      invariant forall t, b :: 0 <= t < localBinCounts.Length0 && 0 <= b < |binMaxes| && t != rank ==>
        localBinCounts[t, b] == old(localBinCounts[t, b])
    {
      var bin := FindBin(data[i], binMaxes, minMeas);
      if bin.None? {
        return false;
      }
      var x := data[i];
      forall b | 0 <= b < |binMaxes| && InBin(binMaxes, minMeas, b, x)
        ensures b == bin.value
      {
        BinUnique(binMaxes, minMeas, b, bin.value, x);
      }
      localBinCounts[rank, bin.value] := localBinCounts[rank, bin.value] + 1;
      i := i + 1;
    }
    ok := true;
  }

  /** Sum of column b over rows 0..k-1: what rank 0 accumulates into `bin_counts[b]`. */
  function ColumnSum(localBinCounts: array2<int>, b: int, k: int): int
    requires 0 <= b < localBinCounts.Length1 && k <= localBinCounts.Length0
    reads localBinCounts
  {
    if k <= 0 then 0 else ColumnSum(localBinCounts, b, k - 1) + localBinCounts[k - 1, b]
  }

  /** Rank 0's merge: every `bin_counts[b]` is overwritten with the sum of column b. */
  method MergeCounts(localBinCounts: array2<int>, binCounts: array<int>, numThreads: int)
    requires localBinCounts.Length0 == numThreads && localBinCounts.Length1 == binCounts.Length
    modifies binCounts
    ensures forall b :: 0 <= b < binCounts.Length ==> binCounts[b] == ColumnSum(localBinCounts, b, numThreads)
  {
    for bin := 0 to binCounts.Length
      invariant forall b :: 0 <= b < bin ==> binCounts[b] == ColumnSum(localBinCounts, b, numThreads)
    {
      binCounts[bin] := 0;
      for t := 0 to numThreads
        invariant binCounts[bin] == ColumnSum(localBinCounts, bin, t)
        invariant forall b :: 0 <= b < bin ==> binCounts[b] == ColumnSum(localBinCounts, b, numThreads)
      {
        binCounts[bin] := binCounts[bin] + localBinCounts[t, bin];
      }
    }
  }

  /** The count part of `createBins`: every bin starts at zero. */
  method CreateBins(binCounts: array<int>)
    modifies binCounts
    ensures forall b :: 0 <= b < binCounts.Length ==> binCounts[b] == 0
  {
    for i := 0 to binCounts.Length
      invariant forall b :: 0 <= b < i ==> binCounts[b] == 0
    {
      binCounts[i] := 0;
    }
  }

  /** `main`'s check: the sum of all bin counts. */
  method BinSum(binCounts: array<int>) returns (binSum: int)
    ensures binSum == Total(binCounts[..])
  {
    binSum := 0;
    for bin := 0 to binCounts.Length
      invariant binSum == Total(binCounts[..bin])
    {
      assert binCounts[..bin + 1][..bin] == binCounts[..bin];
      binSum := binSum + binCounts[bin];
    }
    assert binCounts[..binCounts.Length] == binCounts[..];
  }

  /** Once every rank has counted its block, column b is the count of bin b over the covered prefix. */
  lemma {:induction false} ColumnOfBlocks(localBinCounts: array2<int>, data: seq<real>, binMaxes: seq<real>, minMeas: real,
                                         p: int, b: int, k: int)
    requires p >= 1 && localBinCounts.Length0 == p && localBinCounts.Length1 == |binMaxes|
    requires 0 <= b < |binMaxes| && 0 <= k <= p
    requires forall t :: 0 <= t < p ==>
      localBinCounts[t, b] == CountIn(data, binMaxes, minMeas, b, BlockStart(|data|, p, t), BlockEnd(|data|, p, t))
    ensures ColumnSum(localBinCounts, b, k) == CountIn(data, binMaxes, minMeas, b, 0, BlockStart(|data|, p, k))
  {
    if k > 0 {
      ColumnOfBlocks(localBinCounts, data, binMaxes, minMeas, p, b, k - 1);
      CountSplit(data, binMaxes, minMeas, b, 0, BlockStart(|data|, p, k - 1), BlockStart(|data|, p, k));
    }
  }

  /**
   * Every thread's part before the barrier, rank by rank: count its block
   * into its own row, then arrive. When every measurement has a bin, P-1
   * arrivals wait and the last one releases them all.
   */
  method CountPhase(data: seq<real>, binMaxes: seq<real>, minMeas: real, numThreads: int,
                    localBinCounts: array2<int>) returns (ok: bool, waited: nat, released: nat)
    requires WellFormedBins(binMaxes, minMeas) && numThreads >= 1
    requires localBinCounts.Length0 == numThreads && localBinCounts.Length1 == |binMaxes|
    requires forall r, b :: 0 <= r < numThreads && 0 <= b < |binMaxes| ==> localBinCounts[r, b] == 0
    modifies localBinCounts
    ensures ok <==> forall i :: 0 <= i < CoveredPrefix(|data|, numThreads) ==> InRange(binMaxes, minMeas, data[i])
    ensures ok ==> forall r, b :: 0 <= r < numThreads && 0 <= b < |binMaxes| ==>
      localBinCounts[r, b] == CountIn(data, binMaxes, minMeas, b, BlockStart(|data|, numThreads, r), BlockEnd(|data|, numThreads, r))
    ensures ok ==> waited == numThreads - 1 && released == numThreads - 1
  {
    var bins := |binMaxes|;
    var barrier := new CondBarrier(numThreads);
    waited, released := 0, 0;
    for t := 0 to numThreads
      invariant forall r, b :: 0 <= r < t && 0 <= b < bins ==>
        localBinCounts[r, b] == CountIn(data, binMaxes, minMeas, b, BlockStart(|data|, numThreads, r), BlockEnd(|data|, numThreads, r))
      invariant forall r, b :: t <= r < numThreads && 0 <= b < bins ==> localBinCounts[r, b] == 0
      invariant forall i :: 0 <= i < BlockStart(|data|, numThreads, t) ==> InRange(binMaxes, minMeas, data[i])
      invariant barrier.Valid() && barrier.numThreads == numThreads && barrier.arrivals == t
      invariant t < numThreads ==> barrier.count == t && waited == t && released == 0
      invariant t == numThreads ==> waited == t - 1 && released == t - 1
    {
      ok := ThreadCount(t, numThreads, data, binMaxes, minMeas, localBinCounts);
      if !ok {
        return;
      }
      var waits, n := barrier.Arrive();
      if waits {
        waited := waited + 1;
      } else {
        released := n;
      }
    }
    ok := true;
  }

  /**
   * The whole program after argument parsing: zeroed bins and rows, every
   * rank's counting phase and barrier arrival, rank 0's merge, and the bin
   * sum. Items beyond the covered prefix are never looked at, so the bin sum
   * is `num_threads * (data_count / num_threads)`. A thread count below 1
   * (it is not checked) starts no thread and leaves the zeroed bins. `ok`
   * false is `findBin`'s exit on a measurement outside every bin.
   */
  method RunHistogram(data: seq<real>, binMaxes: seq<real>, minMeas: real, numThreads: int)
    returns (ok: bool, binCounts: array<int>, binSum: int)
    requires WellFormedBins(binMaxes, minMeas)
    ensures fresh(binCounts) && binCounts.Length == |binMaxes|
    ensures numThreads <= 0 ==> ok && binSum == 0 && forall b :: 0 <= b < binCounts.Length ==> binCounts[b] == 0
    ensures numThreads >= 1 ==>
      (ok <==> forall i :: 0 <= i < CoveredPrefix(|data|, numThreads) ==> InRange(binMaxes, minMeas, data[i]))
    ensures numThreads >= 1 && ok ==>
      binCounts[..] == HistogramOf(data, binMaxes, minMeas, 0, CoveredPrefix(|data|, numThreads))
    ensures numThreads >= 1 && ok ==> binSum == CoveredPrefix(|data|, numThreads)
  {
    var bins := |binMaxes|;
    binCounts := new int[bins];
    CreateBins(binCounts);
    binSum := 0;
    if numThreads <= 0 {
      ok := true;
      binSum := BinSum(binCounts);
      ZeroTotal(binCounts[..]);
      return;
    }
    var localBinCounts := new int[numThreads, bins]((t, b) => 0);
    var waited, released;
    ok, waited, released := CountPhase(data, binMaxes, minMeas, numThreads, localBinCounts);
    if !ok {
      return;
    }
    MergeCounts(localBinCounts, binCounts, numThreads);
    var covered := CoveredPrefix(|data|, numThreads);
    forall b | 0 <= b < bins
      ensures binCounts[b] == CountIn(data, binMaxes, minMeas, b, 0, covered)
    {
      ColumnOfBlocks(localBinCounts, data, binMaxes, minMeas, numThreads, b, numThreads);
    }
    assert binCounts[..] == HistogramOf(data, binMaxes, minMeas, 0, covered);
    assert BlockEnd(|data|, numThreads, numThreads - 1) <= covered;
    HistogramTotal(data, binMaxes, minMeas, 0, covered);
    binSum := BinSum(binCounts);
  }
}
