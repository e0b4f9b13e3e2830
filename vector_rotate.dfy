/**
 * The vector rotation of week6/assignmentPthreads/parallel_vector_rotate.c.
 * Vectors are stored three floats apiece (`x` at slot 3v, `y` at 3v+1, `z`
 * at 3v+2). `parallelWork` rotates the vectors of its rank's block into
 * `rotated_vectors`, meets the other threads at the semaphore barrier, sums
 * its own block of rotated vectors into `my_result`, and adds that into the
 * shared `result` once, under a mutex. The matrix-vector product with the
 * rotation matrix is the abstract parameter `rotate`.
 */
module VectorRotate {
  import opened Wrappers
  import opened CArith
  import opened Partition
  import opened Reduction
  import opened Barrier

  datatype Vec3 = Vec3(x: real, y: real, z: real)

  /**
   * `processCommandLine`: exactly two user arguments (argc == 3), the input
   * file name and the thread count, read with atoi (`toInt`) and not
   * range-checked. None is the `usage` exit.
   */
  function ProcessCommandLine(argv: seq<string>, toInt: string -> int): (r: Option<(string, int)>)
    ensures r.Some? <==> |argv| == 3
    ensures r.Some? ==> r.value == (argv[1], toInt(argv[2]))
  {
    if |argv| != 3 then None else Some((argv[1], toInt(argv[2])))
  }

  /** Vector v of a buffer laid out three slots per vector. */
  function VectorAt(a: seq<real>, v: int): Vec3
    requires 0 <= v && 3 * v + 3 <= |a|
  {
    Vec3(a[3 * v], a[3 * v + 1], a[3 * v + 2])
  }

  /** Component c (0, 1 or 2) of each vector of the buffer, 0 outside it. */
  function Component(a: seq<real>, c: int): int -> real
  {
    v => if 0 <= 3 * v + c < |a| then a[3 * v + c] else 0.0
  }

  /** `addVectorVector`: the componentwise sum; the C out-parameter `c` is the returned value. */
  function AddVector(a: Vec3, b: Vec3): Vec3
  {
    Vec3(a.x + b.x, a.y + b.y, a.z + b.z)
  }

  /** The sum is commutative and associative with `{0,0,0}` as unit, so combining order does not matter. */
  lemma AddVectorLaws(a: Vec3, b: Vec3, c: Vec3)
    ensures AddVector(a, b) == AddVector(b, a)
    ensures AddVector(AddVector(a, b), c) == AddVector(a, AddVector(b, c))
    ensures AddVector(Vec3(0.0, 0.0, 0.0), a) == a
  {
  }

  /** The slots a rank writes, 3v..3v+2 for v in its block, lie inside the buffer. */
  lemma SlotsInBounds(numVectors: int, p: int, rank: int, v: int, c: int)
    requires numVectors >= 0 && p >= 1 && 0 <= rank < p && 0 <= c < 3
    requires BlockStart(numVectors, p, rank) <= v < BlockEnd(numVectors, p, rank)
    ensures 0 <= 3 * v + c < 3 * numVectors
  {
  }

  /** Two different ranks never write the same slot. */
  lemma SlotsDisjoint(numVectors: int, p: int, r1: int, r2: int, v1: int, v2: int, c1: int, c2: int)
    requires numVectors >= 0 && p >= 1 && r1 != r2 && 0 <= c1 < 3 && 0 <= c2 < 3
    requires BlockStart(numVectors, p, r1) <= v1 < BlockEnd(numVectors, p, r1)
    requires BlockStart(numVectors, p, r2) <= v2 < BlockEnd(numVectors, p, r2)
    ensures 3 * v1 + c1 != 3 * v2 + c2
  {
    if r1 < r2 {
      BlocksOrdered(numVectors, p, r1, r2);
    } else {
      BlocksOrdered(numVectors, p, r2, r1);
    }
  }

  /**
   * `first_i` and `last_i` of a rank, after the clamp `if (last_i > num_vectors)`,
   * which never fires.
   */
  method RankRange(numVectors: int, numThreads: int, rank: int) returns (firstI: int, lastI: int)
    requires numVectors >= 0 && 0 <= rank < numThreads
    ensures firstI == BlockStart(numVectors, numThreads, rank) && lastI == BlockEnd(numVectors, numThreads, rank)
    ensures 0 <= firstI <= lastI <= numVectors
  {
    firstI := TruncDiv(numVectors, numThreads) * rank;
    lastI := TruncDiv(numVectors, numThreads) * (rank + 1);
    ClampNeverFires(numVectors, numThreads, rank);
    if lastI > numVectors {
      lastI := numVectors;
    }
  }

  /** The first loop of `parallelWork`: rotate vectors firstI..lastI-1 into their own slots. */
  method TransformBlock(rotate: Vec3 -> Vec3, original: seq<real>, rotated: array<real>, firstI: int, lastI: int)
    requires |original| == rotated.Length && 0 <= firstI <= lastI && 3 * lastI <= rotated.Length
    modifies rotated
    ensures forall v :: firstI <= v < lastI ==> VectorAt(rotated[..], v) == rotate(VectorAt(original, v))
    ensures forall k :: 0 <= k < rotated.Length && !(3 * firstI <= k < 3 * lastI) ==> rotated[k] == old(rotated[k])
  {
    for v := firstI to lastI
      invariant forall u :: firstI <= u < v ==> VectorAt(rotated[..], u) == rotate(VectorAt(original, u))
      invariant forall k :: 0 <= k < rotated.Length && !(3 * firstI <= k < 3 * v) ==> rotated[k] == old(rotated[k])
    {
      var w := rotate(VectorAt(original, v));
      rotated[3 * v], rotated[3 * v + 1], rotated[3 * v + 2] := w.x, w.y, w.z;
    }
  }

  /** The second loop of `parallelWork`: `my_result`, the sum of the rank's own rotated vectors. */
  method LocalSum(rotated: array<real>, firstI: int, lastI: int) returns (myResult: Vec3)
    requires 0 <= firstI <= lastI && 3 * lastI <= rotated.Length
    ensures myResult.x == SumRange(Component(rotated[..], 0), firstI, lastI)
    ensures myResult.y == SumRange(Component(rotated[..], 1), firstI, lastI)
    ensures myResult.z == SumRange(Component(rotated[..], 2), firstI, lastI)
  {
    myResult := Vec3(0.0, 0.0, 0.0);
    for v := firstI to lastI
      invariant myResult.x == SumRange(Component(rotated[..], 0), firstI, v)
      invariant myResult.y == SumRange(Component(rotated[..], 1), firstI, v)
      invariant myResult.z == SumRange(Component(rotated[..], 2), firstI, v)
    {
      assert Component(rotated[..], 0)(v) == rotated[3 * v];
      assert Component(rotated[..], 1)(v) == rotated[3 * v + 1];
      assert Component(rotated[..], 2)(v) == rotated[3 * v + 2];
      myResult := AddVector(myResult, Vec3(rotated[3 * v], rotated[3 * v + 1], rotated[3 * v + 2]));
    }
  }

  /** The critical section: `result += my_result`, componentwise. */
  method Combine(result: array<real>, myResult: Vec3)
    requires result.Length == 3
    modifies result
    ensures result[..] == [old(result[0]) + myResult.x, old(result[1]) + myResult.y, old(result[2]) + myResult.z]
  {
    var temp := AddVector(Vec3(result[0], result[1], result[2]), myResult);
    result[0], result[1], result[2] := temp.x, temp.y, temp.z;
  }

  /**
   * The part of every `parallelWork` before the barrier, rank by rank:
   * each rotates its block and arrives. P-1 arrivals suspend and the last
   * posts `barrier_sem` P-1 times, once for each of them.
   */
  method TransformPhase(rotate: Vec3 -> Vec3, original: seq<real>, numVectors: int, numThreads: int,
                        rotated: array<real>) returns (suspended: nat, posts: nat)
    requires numVectors >= 0 && numThreads >= 1 && |original| == 3 * numVectors == rotated.Length
    modifies rotated
    ensures suspended == numThreads - 1 && posts == numThreads - 1
    ensures forall v :: 0 <= v < CoveredPrefix(numVectors, numThreads) ==>
      VectorAt(rotated[..], v) == rotate(VectorAt(original, v))
    ensures forall k :: 3 * CoveredPrefix(numVectors, numThreads) <= k < rotated.Length ==>
      rotated[k] == old(rotated[k])
  {
    var barrier := new SemBarrier(numThreads);
    suspended, posts := 0, 0;
    for t := 0 to numThreads
      invariant forall v :: 0 <= v < BlockStart(numVectors, numThreads, t) ==>
        VectorAt(rotated[..], v) == rotate(VectorAt(original, v))
      invariant forall k :: 3 * BlockStart(numVectors, numThreads, t) <= k < rotated.Length ==>
        rotated[k] == old(rotated[k])
      invariant barrier.Valid() && barrier.numThreads == numThreads && barrier.arrivals == t
      invariant t < numThreads ==> barrier.counter == t && suspended == t && posts == 0
      invariant t == numThreads ==> barrier.counter == 0 && suspended == t - 1 && posts == t - 1
    {
      var firstI, lastI := RankRange(numVectors, numThreads, t);
      TransformBlock(rotate, original, rotated, firstI, lastI);
      var waits, n := barrier.Arrive();
      if waits {
        suspended := suspended + 1;
      } else {
        posts := n;
      }
    }
  }

  /**
   * The part of one `parallelWork` after the barrier: sum the rank's own
   * block and add it into `result` in the critical section.
   */
  method SumAndCombine(rotated: array<real>, numVectors: int, numThreads: int, rank: int, result: array<real>)
    requires numVectors >= 0 && 0 <= rank < numThreads && rotated.Length == 3 * numVectors
    requires result.Length == 3 && result != rotated
    modifies result
    ensures forall c :: 0 <= c < 3 ==>
      result[c] == old(result[c]) + BlockPartial(Component(rotated[..], c), BlockSize(numVectors, numThreads))(rank)
  {
    var firstI, lastI := RankRange(numVectors, numThreads, rank);
    var myResult := LocalSum(rotated, firstI, lastI);
    Combine(result, myResult);
  }

  /**
   * The part of every `parallelWork` after the barrier: each rank sums its
   * block and combines into `result`, the critical sections in the order `order`.
   */
  method SumPhase(rotated: array<real>, numVectors: int, numThreads: int, order: seq<int>, result: array<real>)
    requires numVectors >= 0 && numThreads >= 1 && rotated.Length == 3 * numVectors
    requires result.Length == 3 && result != rotated && IsSchedule(order, numThreads)
    modifies result
    ensures forall c :: 0 <= c < 3 ==>
      result[c] == old(result[c]) + SumRange(Component(rotated[..], c), 0, CoveredPrefix(numVectors, numThreads))
  {
    var bs := BlockSize(numVectors, numThreads);
    ghost var rot, start := rotated[..], result[..];
    ScheduleRanks(order, numThreads);
    for j := 0 to |order|
      invariant forall c :: 0 <= c < 3 ==> result[c] == start[c] + SumBy(BlockPartial(Component(rot, c), bs), order[..j])
    {
      SumAndCombine(rotated, numVectors, numThreads, order[j], result);
      forall c | 0 <= c < 3
        ensures SumBy(BlockPartial(Component(rot, c), bs), order[..j + 1])
             == SumBy(BlockPartial(Component(rot, c), bs), order[..j]) + BlockPartial(Component(rot, c), bs)(order[j])
      {
        SumByStep(BlockPartial(Component(rot, c), bs), order, j);
      }
    }
    assert order[..|order|] == order;
    forall c | 0 <= c < 3
      ensures SumBy(BlockPartial(Component(rot, c), bs), order) == SumRange(Component(rot, c), 0, bs * numThreads)
    {
      ScheduledBlockTotal(Component(rot, c), bs, order, numThreads);
    }
  }

  /**
   * main from `result = {0, 0, 0}` to the joins. A thread count below 1
   * starts no thread. `rotated` holds whatever the allocation returned.
   */
  method Run(rotate: Vec3 -> Vec3, original: seq<real>, numVectors: int, numThreads: int,
             rotated: array<real>, order: seq<int>) returns (result: array<real>)
    requires numVectors >= 0 && |original| == 3 * numVectors == rotated.Length
    requires IsSchedule(order, if numThreads >= 1 then numThreads else 0)
    modifies rotated
    ensures fresh(result) && result.Length == 3
    ensures numThreads <= 0 ==> rotated[..] == old(rotated[..]) && result[..] == [0.0, 0.0, 0.0]
    ensures numThreads >= 1 ==> forall v :: 0 <= v < CoveredPrefix(numVectors, numThreads) ==>
      VectorAt(rotated[..], v) == rotate(VectorAt(original, v))
    ensures numThreads >= 1 ==> forall k :: 3 * CoveredPrefix(numVectors, numThreads) <= k < rotated.Length ==>
      rotated[k] == old(rotated[k])
    ensures numThreads >= 1 ==> forall c :: 0 <= c < 3 ==>
      result[c] == SumRange(Component(rotated[..], c), 0, CoveredPrefix(numVectors, numThreads))
  {
    if numThreads >= 1 {
      var suspended, posts := TransformPhase(rotate, original, numVectors, numThreads, rotated);
    }
    result := new real[] [0.0, 0.0, 0.0];
    if numThreads >= 1 {
      SumPhase(rotated, numVectors, numThreads, order, result);
    }
  }
}
