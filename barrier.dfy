/**
 * The two hand-built barriers, as sequential state machines over their shared
 * counters. Blocking is not modelled; instead every arrival says whether it
 * would suspend, and the releasing arrival says how many suspended threads it
 * wakes. Each arrival runs while holding the barrier's mutual exclusion
 * (`barrier_mutex`, or the semaphore `count_sem`).
 */
module Barrier {
  import opened CArith

  /** Counter after one arrival at the condition-variable barrier. */
  function CondNext(count: int, p: int): int
  {
    if count + 1 < p then count + 1 else 0
  }

  /** Counter after one arrival at the semaphore barrier. */
  function SemNext(counter: int, p: int): int
  {
    if counter < p - 1 then counter + 1 else 0
  }

  /** The two variants make the same counter transition. */
  lemma VariantsAgree(count: int, p: int)
    ensures CondNext(count, p) == SemNext(count, p)
  {
  }

  /** Whether an arrival that finds `count` is the one that resets and releases. */
  predicate IsReleaser(count: int, p: int)
  {
    count + 1 >= p
  }

  /** The counter after k arrivals at a fresh barrier of p threads. */
  function CountAfter(p: int, k: nat): int
  {
    if k == 0 then 0 else CondNext(CountAfter(p, k - 1), p)
  }

  /** The semaphore barrier's `counter` after k arrivals at a fresh barrier of p threads. */
  function SemCountAfter(p: int, k: nat): int
  {
    if k == 0 then 0 else SemNext(SemCountAfter(p, k - 1), p)
  }

  /** Both barriers' counters run through the same values. */
  lemma {:induction false} SemCountAgrees(p: int, k: nat)
    ensures SemCountAfter(p, k) == CountAfter(p, k)
  {
    if k > 0 {
      SemCountAgrees(p, k - 1);
      VariantsAgree(CountAfter(p, k - 1), p);
    }
  }

  /** How many of the first k arrivals reset the counter. */
  function ResetsAfter(p: int, k: nat): nat
  {
    if k == 0 then 0
    else ResetsAfter(p, k - 1) + (if IsReleaser(CountAfter(p, k - 1), p) then 1 else 0)
  }

  /**
   * Phases: after k arrivals, ResetsAfter(p, k) full phases of p arrivals are
   * complete and the counter holds the arrivals of the unfinished phase.
   */
  lemma {:induction false} PhaseStructure(p: int, k: nat)
    requires p >= 1
    ensures 0 <= CountAfter(p, k) < p
    ensures k == p * ResetsAfter(p, k) + CountAfter(p, k)
  {
    if k > 0 {
      PhaseStructure(p, k - 1);
    }
  }

  /** The counter is k mod p and exactly k div p arrivals have reset it. */
  lemma PhaseCount(p: int, k: nat)
    requires p >= 1
    ensures CountAfter(p, k) == k % p
    ensures ResetsAfter(p, k) == k / p
  {
    PhaseStructure(p, k);
    EuclidUnique(k, p, ResetsAfter(p, k), CountAfter(p, k));
  }

  /** Arrival number k+1 resets the barrier exactly when k+1 is a multiple of p. */
  lemma ReleaserIsEveryPth(p: int, k: nat)
    requires p >= 1
    ensures IsReleaser(CountAfter(p, k), p) <==> (k + 1) % p == 0
  {
    PhaseCount(p, k);
    PhaseCount(p, k + 1);
  }

  /** Each phase of p consecutive arrivals, from a phase boundary, has exactly one releaser. */
  lemma OneReleaserPerPhase(p: int, phase: nat)
    requires p >= 1
    ensures CountAfter(p, p * phase) == 0
    ensures ResetsAfter(p, p * phase + p) == ResetsAfter(p, p * phase) + 1
  {
    var k := p * phase;
    PhaseCount(p, k);
    EuclidUnique(k, p, phase, 0);
    assert k + p == p * (phase + 1);
    PhaseCount(p, k + p);
    EuclidUnique(k + p, p, phase + 1, 0);
  }

  /**
   * The barrier of the histogram program: `barrier_thread_count`, guarded by
   * `barrier_mutex`, with waiters suspended on `ok_to_proceed`.
   */
  class CondBarrier {
    const numThreads: int
    /** `barrier_thread_count` */
    var count: int
    /** Threads suspended in `pthread_cond_wait` for the current phase. */
    var waiting: nat
    /** Arrivals so far, over all phases. */
    ghost var arrivals: nat
    /** Arrivals so far that reset the counter and broadcast. */
    ghost var resets: nat

    /** The state every arrival finds and leaves when it releases the mutex. */
    ghost predicate Valid()
      reads this
    {
      && numThreads >= 1
      && 0 <= count < numThreads
      && waiting == count
      && count == CountAfter(numThreads, arrivals)
      && resets == ResetsAfter(numThreads, arrivals)
    }

    /** `barrier_thread_count = 0` before the threads are created. */
    constructor (p: int)
      requires p >= 1
      ensures Valid() && numThreads == p
      ensures count == 0 && waiting == 0 && arrivals == 0 && resets == 0
    {
      numThreads := p;
      count := 0;
      waiting := 0;
      arrivals := 0;
      resets := 0;
    }

    /**
     * One arrival: increment the counter; below `numThreads` the caller waits,
     * otherwise it clears the counter and broadcasts to every waiter.
     */
    method Arrive() returns (waits: bool, released: nat)
      requires Valid()
      modifies this
      ensures Valid()
      ensures arrivals == old(arrivals) + 1
      ensures waits <==> old(count) + 1 < numThreads
      ensures waits ==> count == old(count) + 1 && waiting == old(waiting) + 1 && released == 0
      ensures waits ==> resets == old(resets)
      ensures !waits ==> count == 0 && waiting == 0 && resets == old(resets) + 1
      ensures !waits ==> released == old(waiting) == numThreads - 1
    {
      count := count + 1;
      arrivals := arrivals + 1;
      if count < numThreads {
        waiting := waiting + 1;
        waits, released := true, 0;
      } else {
        count := 0;
        resets := resets + 1;
        released := waiting;
        waiting := 0;
        waits := false;
      }
    }
  }

  /**
   * The barrier of the vector-rotation program: `counter`, guarded by the
   * semaphore `count_sem` (initially 1), with waiters suspended on the
   * semaphore `barrier_sem` (initially 0). A post on `barrier_sem` while a
   * thread is suspended on it wakes that thread; otherwise it is kept.
   */
  class SemBarrier {
    const numThreads: int
    /** `counter` */
    var counter: int
    /** The value of `count_sem`. */
    var countSem: int
    /** The value of `barrier_sem`. */
    var barrierSem: int
    /** Threads suspended in `sem_wait(&barrier_sem)`. */
    var blocked: nat
    ghost var arrivals: nat
    ghost var resets: nat

    /**
     * Between arrivals: `count_sem` is free again, no post is left over for a
     * later phase, and the suspended threads are exactly the counted ones.
     */
    ghost predicate Valid()
      reads this
    {
      && numThreads >= 1
      && 0 <= counter < numThreads
      && countSem == 1
      && barrierSem == 0
      && blocked == counter
      && counter == SemCountAfter(numThreads, arrivals)
      && resets == ResetsAfter(numThreads, arrivals)
    }

    /** `counter = 0; sem_init(&barrier_sem, 0, 0); sem_init(&count_sem, 0, 1);` */
    constructor (p: int)
      requires p >= 1
      ensures Valid() && numThreads == p
      ensures counter == 0 && blocked == 0 && arrivals == 0 && resets == 0
    {
      numThreads := p;
      counter := 0;
      countSem := 1;
      barrierSem := 0;
      blocked := 0;
      arrivals := 0;
      resets := 0;
    }

    /** `sem_post(&barrier_sem)`: wake one suspended thread, or keep the post. */
    method PostBarrier()
      modifies this`blocked, this`barrierSem
      ensures old(blocked) > 0 ==> blocked == old(blocked) - 1 && barrierSem == old(barrierSem)
      ensures old(blocked) == 0 ==> blocked == 0 && barrierSem == old(barrierSem) + 1
    {
      if blocked > 0 {
        blocked := blocked - 1;
      } else {
        barrierSem := barrierSem + 1;
      }
    }

    /**
     * One arrival: under `count_sem`, a non-final arrival (`counter < P-1`)
     * increments the counter and suspends; the final one clears the counter
     * and posts `barrier_sem` P-1 times.
     */
    method Arrive() returns (waits: bool, posts: nat)
      requires Valid()
      modifies this
      ensures Valid()
      ensures arrivals == old(arrivals) + 1
      ensures waits <==> old(counter) < numThreads - 1
      ensures waits ==> counter == old(counter) + 1 && blocked == old(blocked) + 1 && posts == 0
      ensures waits ==> resets == old(resets)
      ensures !waits ==> counter == 0 && blocked == 0 && resets == old(resets) + 1
      ensures !waits ==> posts == numThreads - 1 == old(blocked)
    {
      SemCountAgrees(numThreads, arrivals);
      countSem := countSem - 1;
      arrivals := arrivals + 1;
      if counter < numThreads - 1 {
        counter := counter + 1;
        countSem := countSem + 1;
        // sem_wait(&barrier_sem): no post is pending, so the thread suspends
        blocked := blocked + 1;
        waits, posts := true, 0;
      } else {
        counter := 0;
        resets := resets + 1;
        countSem := countSem + 1;
        posts := 0;
        for j := 0 to numThreads - 1
          invariant posts == j
          invariant blocked == numThreads - 1 - j
          invariant barrierSem == 0
          modifies this`blocked, this`barrierSem
        {
          PostBarrier();
          posts := posts + 1;
        }
        waits := false;
      }
    }
  }

  /** With one thread the first arrival releases at once and posts nothing. */
  method SingleThreadSemBarrier() returns (waits: bool, posts: nat)
    ensures !waits && posts == 0
  {
    var b := new SemBarrier(1);
    waits, posts := b.Arrive();
  }

  /** A full phase of P arrivals at a fresh semaphore barrier: P-1 suspend, the last posts P-1 times. */
  method SemBarrierPhase(p: int) returns (suspended: nat, posts: nat, b: SemBarrier)
    requires p >= 1
    ensures suspended == p - 1 && posts == p - 1
    ensures b.Valid() && b.counter == 0 && b.blocked == 0 && b.resets == 1
  {
    b := new SemBarrier(p);
    suspended, posts := 0, 0;
    var k := 0;
    while k < p
      invariant 0 <= k <= p
      invariant b.Valid() && b.numThreads == p && b.arrivals == k
      invariant k < p ==> b.counter == k && suspended == k && posts == 0 && b.resets == 0
      invariant k == p ==> b.counter == 0 && suspended == p - 1 && posts == p - 1 && b.resets == 1
    {
      var w, n := b.Arrive();
      if w {
        suspended := suspended + 1;
      } else {
        posts := n;
      }
      k := k + 1;
    }
  }
}
