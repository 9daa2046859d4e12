/**
 * `BenchGenerator` of src/model/scheduling.ts: an endless source of benches
 * (the people who sit out a slot) fed from a FIFO queue that is refilled with
 * a fresh permutation of the squad whenever it runs short.
 */
module Bench {
  import opened Collections
  import opened ScheduleModel
  import opened Sampling

  /**
   * What one successful `next()` does to the queue, as seen from outside:
   * either the queue holds a whole bench and the bench is its front, or a
   * permutation of the squad is appended first and the bench is the front of
   * the longer queue.
   */
  ghost predicate BenchStep(squad: seq<PersonId>, k: nat, q: seq<PersonId>, bench: seq<PersonId>, q': seq<PersonId>) {
    if |q| >= k then bench == q[..k] && q' == q[k..]
    else |bench| == k && bench[..|q|] == q && multiset(bench[|q|..] + q') == multiset(squad)
  }

  /** The part of queue `q` that a bench of `k` takes when no refill happens. */
  ghost function FrontOf(k: nat, q: seq<PersonId>): seq<PersonId> {
    if k <= |q| then q[..k] else q
  }

  /** The generator's invariant on the squad, the bench size, the last bench
      and the queue. */
  ghost predicate GenInv(squad: seq<PersonId>, k: nat, prev: seq<PersonId>, q: seq<PersonId>) {
    && Distinct(squad)
    && Distinct(q) && Within(q, squad)
    && Distinct(prev) && Within(prev, squad) && |prev| <= k
    && Disjoint(prev, FrontOf(k, q))
  }

  class BenchGenerator {
    var squad: seq<PersonId>
    var nBench: nat
    var prevBench: seq<PersonId>
    var benchQueue: seq<PersonId>

    ghost predicate Valid()
      reads this
    {
      GenInv(squad, nBench, prevBench, benchQueue)
    }

    constructor (nBench: nat, squad: seq<PersonId>)
      ensures Valid()
      ensures this.nBench == nBench && this.squad == Dedup(squad)
      ensures prevBench == [] && benchQueue == []
    {
      this.nBench := nBench;
      this.squad := Dedup(squad);
      this.prevBench := [];
      this.benchQueue := [];
    }

    /**
     * The next bench: `nBench` distinct squad members, none of whom sat out
     * last time. The queue is refilled only when it holds fewer than `nBench`
     * people; a refill fails when the squad has fewer than `2 * nBench` members
     * to choose from.
     */
    method Next(rng: Random) returns (r: Result<seq<PersonId>>)
      requires Valid()
      modifies this, rng
      ensures Valid()
      ensures squad == old(squad) && nBench == old(nBench)
      ensures |old(benchQueue)| >= nBench ==>
        r == Ok(old(benchQueue)[..nBench]) && benchQueue == old(benchQueue)[nBench..]
      ensures r.Ok? ==> prevBench == r.value && |r.value| == nBench && Distinct(r.value)
      ensures r.Ok? ==> Within(r.value, squad) && Disjoint(r.value, old(prevBench))
      ensures r.Ok? ==> BenchStep(squad, nBench, old(benchQueue), r.value, benchQueue)
      ensures 2 * nBench <= |squad| ==> r.Ok?
      ensures old(benchQueue) == [] && old(prevBench) == [] && |squad| < 2 * nBench ==> r.Err?
      ensures r.Err? ==> r.error == SampleTooSmall && prevBench == old(prevBench)
      ensures r.Err? ==> old(benchQueue) <= benchQueue && |benchQueue| <= nBench
    {
      var queue := benchQueue;
      ghost var prev := prevBench;
      var nMissing := nBench - |queue|;
      if nMissing > 0 {
        var refilled, partial := Replenish(squad, nBench, prevBench, queue, rng);
        if refilled.Err? {
          benchQueue := partial;
          return Err(refilled.error);
        }
        queue := refilled.value;
      } else {
        AfterTake(squad, nBench, prev, queue);
      }
      var bench := queue[..nBench];
      benchQueue := queue[nBench..];
      prevBench := Dedup(bench);
      r := Ok(Dedup(bench));
    }
  }

  /**
   * The refill branch of `next()`: the queue, short of a whole bench, is
   * topped up from a fresh copy of the squad by a first sample avoiding the
   * queue and the last bench, a second sample of a whole bench avoiding the
   * queue so far, and the shuffled rest of the copy. On failure `partial` is
   * the queue as far as it got.
   */
  method Replenish(squad: seq<PersonId>, k: nat, prev: seq<PersonId>, queue: seq<PersonId>, rng: Random)
    returns (r: Result<seq<PersonId>>, partial: seq<PersonId>)
    requires GenInv(squad, k, prev, queue) && |queue| < k
    modifies rng
    ensures r.Ok? ==> |r.value| >= k
    ensures r.Ok? ==> var bench := r.value[..k];
      && GenInv(squad, k, bench, r.value[k..])
      && Dedup(bench) == bench && Distinct(bench) && Disjoint(bench, prev) && Within(bench, squad)
      && BenchStep(squad, k, queue, bench, r.value[k..])
    ensures 2 * k <= |squad| ==> r.Ok?
    ensures queue == [] && prev == [] && |squad| < 2 * k ==> r.Err?
    ensures r.Err? ==> r.error == SampleTooSmall
    ensures r.Err? ==> GenInv(squad, k, prev, partial) && queue <= partial && |partial| <= k
  {
    partial := queue;
    var replenishPool := new PersonSet(squad);
    DedupOfDistinct(squad);
    var forbiddenInitial := SetUnion(queue, prev);
    FirstSampleBound(squad, k, queue, prev, forbiddenInitial);
    var initial := SampleWithoutInPlace(replenishPool, k - |queue|, forbiddenInitial, rng);
    if initial.Err? {
      return Err(initial.error), partial;
    }
    partial := queue + initial.value;
    var forbiddenNext := Dedup(partial);
    WithoutDistinct(squad, initial.value);
    SecondSampleBound(squad, k, queue, initial.value, forbiddenNext);
    var next := SampleWithoutInPlace(replenishPool, k, forbiddenNext, rng);
    if next.Err? {
      AfterFirstSample(squad, k, prev, queue, forbiddenInitial, initial.value);
      return Err(next.error), partial;
    }
    var rest := Shuffled(replenishPool.elems, rng);
    AfterRefill(squad, k, prev, queue, forbiddenInitial, initial.value, forbiddenNext, next.value, rest);
    r := Ok(partial + (next.value + rest));
  }

  /** A call that finds a whole bench in the queue keeps the invariant and
      hands out a bench disjoint from the last one. */
  lemma AfterTake(squad: seq<PersonId>, k: nat, prev: seq<PersonId>, q: seq<PersonId>)
    requires GenInv(squad, k, prev, q) && k <= |q|
    ensures GenInv(squad, k, q[..k], q[k..])
    ensures Dedup(q[..k]) == q[..k] && Distinct(q[..k]) && Within(q[..k], squad)
    ensures Disjoint(q[..k], prev)
  {
    DistinctSlice(q, 0, k);
    DistinctSlice(q, k, |q|);
    assert q == q[..k] + q[k..];
    DistinctConcat(q[..k], q[k..]);
    DedupOfDistinct(q[..k]);
    assert FrontOf(k, q) == q[..k];
  }

  /** The first sample of a refill can be drawn when the squad is at least
      twice the bench, and never when the generator is fresh and it is not. */
  lemma FirstSampleBound(squad: seq<PersonId>, k: nat, q: seq<PersonId>, prev: seq<PersonId>, forbidden: seq<PersonId>)
    requires Distinct(squad) && |q| < k && |prev| <= k
    requires forbidden == Dedup(q + prev)
    ensures 2 * k <= |squad| ==> |Without(squad, forbidden)| >= k - |q|
    ensures q == [] && prev == [] ==> Without(squad, forbidden) == squad
  {
    WithoutLowerBound(squad, forbidden, q + prev);
    if q == [] && prev == [] {
      assert forbidden == [];
      WithoutNothing(squad);
    }
  }

  /** After the first sample of a refill the queue, extended by the sample,
      is a whole bench that keeps the invariant. */
  lemma AfterFirstSample(squad: seq<PersonId>, k: nat, prev: seq<PersonId>, q: seq<PersonId>,
                         forbidden: seq<PersonId>, initial: seq<PersonId>)
    requires GenInv(squad, k, prev, q) && |q| < k
    requires forbidden == Dedup(q + prev)
    requires Distinct(initial) && |initial| == k - |q| && Within(initial, Without(squad, forbidden))
    ensures GenInv(squad, k, prev, q + initial) && |q + initial| == k
    ensures Dedup(q + initial) == q + initial && Distinct(q + initial)
    ensures Disjoint(q + initial, prev) && Within(q + initial, squad)
  {
    DistinctConcat(q, initial);
    DedupOfDistinct(q + initial);
    assert FrontOf(k, q) == q;
    assert FrontOf(k, q + initial) == q + initial;
  }

  /** The second sample of a refill can be drawn when the squad is at least
      twice the bench. */
  lemma SecondSampleBound(squad: seq<PersonId>, k: nat, q: seq<PersonId>, initial: seq<PersonId>, forbidden: seq<PersonId>)
    requires Distinct(squad) && Distinct(initial) && Within(initial, squad)
    requires |q| + |initial| == k
    requires forbidden == Dedup(q + initial)
    ensures 2 * k <= |squad| ==> |Without(Without(squad, initial), forbidden)| >= k
    ensures |Without(Without(squad, initial), forbidden)| <= |squad| - |initial|
  {
    var pool := Without(squad, initial);
    WithoutExact(squad, initial);
    WithoutDistinct(squad, initial);
    WithoutLowerBound(pool, forbidden, q);
  }

  lemma SplitAt(a: seq<PersonId>, b: seq<PersonId>)
    ensures (a + b)[..|a|] == a && (a + b)[|a|..] == b
  {}

  /** The two samples of a refill and the shuffled rest of the pool are a
      permutation of the squad, and the second sample and the rest are distinct. */
  lemma RefillPool(squad: seq<PersonId>, initial: seq<PersonId>, forbidden: seq<PersonId>,
                   next: seq<PersonId>, rest: seq<PersonId>)
    requires Distinct(squad) && Distinct(initial) && Within(initial, squad)
    requires Distinct(next) && Within(next, Without(Without(squad, initial), forbidden))
    requires multiset(rest) == multiset(Without(Without(squad, initial), next))
    ensures multiset(initial + (next + rest)) == multiset(squad)
    ensures Distinct(next + rest) && Within(next + rest, squad)
  {
    var pool1 := Without(squad, initial);
    WithoutExact(squad, initial);
    WithoutDistinct(squad, initial);
    assert Within(next, pool1);
    WithoutExact(pool1, next);
    assert multiset(next + rest) == multiset(pool1);
    DistinctPermutation(pool1, next + rest);
    forall x | x in next + rest ensures x in squad {
      assert multiset(next + rest)[x] > 0;
      assert x in pool1;
    }
  }

  /** A refill appends a permutation of the squad; the bench is the old queue
      and the first sample, and the second sample and the rest of the pool
      form the new queue. */
  lemma AfterRefill(squad: seq<PersonId>, k: nat, prev: seq<PersonId>, q: seq<PersonId>,
                    forbiddenInitial: seq<PersonId>, initial: seq<PersonId>,
                    forbidden: seq<PersonId>, next: seq<PersonId>, rest: seq<PersonId>)
    requires GenInv(squad, k, prev, q) && |q| < k
    requires forbiddenInitial == Dedup(q + prev)
    requires Distinct(initial) && |initial| == k - |q| && Within(initial, Without(squad, forbiddenInitial))
    requires forbidden == Dedup(q + initial)
    requires Distinct(next) && |next| == k && Within(next, Without(Without(squad, initial), forbidden))
    requires multiset(rest) == multiset(Without(Without(squad, initial), next))
    ensures ((q + initial) + (next + rest))[..k] == q + initial
    ensures ((q + initial) + (next + rest))[k..] == next + rest
    ensures GenInv(squad, k, q + initial, next + rest)
    ensures Dedup(q + initial) == q + initial && Distinct(q + initial)
    ensures Disjoint(q + initial, prev) && Within(q + initial, squad)
    ensures BenchStep(squad, k, q, q + initial, next + rest)
  {
    AfterFirstSample(squad, k, prev, q, forbiddenInitial, initial);
    RefillPool(squad, initial, forbidden, next, rest);
    assert multiset(initial + (next + rest)) == multiset(squad);
    SplitAt(q + initial, next + rest);
    assert FrontOf(k, next + rest) == next;
    assert (q + initial)[|q|..] == initial;
  }

  /** A run of successful `next()` calls: `queues[i]` is the queue before call
      `i` and `benches[i]` what it returned. */
  ghost predicate Trace(squad: seq<PersonId>, k: nat, queues: seq<seq<PersonId>>, benches: seq<seq<PersonId>>)
    decreases |benches|
  {
    && |queues| == |benches| + 1
    && (|benches| > 0 ==>
          var n := |benches| - 1;
          Trace(squad, k, queues[..n + 1], benches[..n]) && BenchStep(squad, k, queues[n], benches[n], queues[n + 1]))
  }

  /** `n` blocks of `k`, that is `n * k`, unfolded one block at a time. */
  ghost function Blocks(n: nat, k: nat): nat {
    if n == 0 then 0 else Blocks(n - 1, k) + k
  }

  lemma {:induction false} BlocksMul(n: nat, k: nat)
    ensures Blocks(n, k) == n * k
  {
    if n > 0 {
      BlocksMul(n - 1, k);
      MulSucc(n - 1, k);
    }
  }

  lemma MulSucc(a: nat, k: nat)
    ensures (a + 1) * k == a * k + k && a * k >= 0
  {}

  /** Step `i` of a trace. */
  lemma {:induction false} TraceAt(squad: seq<PersonId>, k: nat, queues: seq<seq<PersonId>>, benches: seq<seq<PersonId>>, i: nat)
    requires Trace(squad, k, queues, benches) && i < |benches|
    ensures BenchStep(squad, k, queues[i], benches[i], queues[i + 1])
    decreases |benches|
  {
    var n := |benches| - 1;
    if i < n {
      TraceAt(squad, k, queues[..n + 1], benches[..n], i);
    }
  }

  /** A trace is exactly a chain of steps. */
  lemma {:induction false} TraceFromSteps(squad: seq<PersonId>, k: nat, queues: seq<seq<PersonId>>, benches: seq<seq<PersonId>>)
    requires |queues| == |benches| + 1
    requires forall i :: 0 <= i < |benches| ==> BenchStep(squad, k, queues[i], benches[i], queues[i + 1])
    ensures Trace(squad, k, queues, benches)
    decreases |benches|
  {
    if |benches| > 0 {
      var n := |benches| - 1;
      forall i | 0 <= i < n
        ensures BenchStep(squad, k, queues[..n + 1][i], benches[..n][i], queues[..n + 1][i + 1])
      {
        assert queues[..n + 1][i] == queues[i] && benches[..n][i] == benches[i];
      }
      TraceFromSteps(squad, k, queues[..n + 1], benches[..n]);
    }
  }

  /** The call that starts a block, at an empty queue, enqueues a permutation
      of the squad and hands out its first bench. */
  lemma BlockStart(squad: seq<PersonId>, k: nat, m: nat, bench: seq<PersonId>, q': seq<PersonId>)
    requires k > 0 && m > 0 && |squad| == Blocks(m, k) && BenchStep(squad, k, [], bench, q')
    ensures multiset(bench + q') == multiset(squad)
    ensures Flatten([bench]) + q' == bench + q'
    ensures |q'| == Blocks(m - 1, k)
  {
    assert bench[0..] == bench;
    assert |bench + q'| == |multiset(bench + q')| == |squad|;
    assert [bench][..0] == [];
  }

  /** One more call inside a block: a whole bench is taken off the queue, and
      what was handed out so far plus the queue is still the block's permutation. */
  lemma TakeStep(squad: seq<PersonId>, k: nat, m: nat, t: nat, p: seq<PersonId>, handedOut: seq<PersonId>,
                 q: seq<PersonId>, bench: seq<PersonId>, q': seq<PersonId>)
    requires k > 0 && 1 < t <= m
    requires handedOut + q == p && |q| == Blocks(m - (t - 1), k)
    requires BenchStep(squad, k, q, bench, q')
    ensures (handedOut + bench) + q' == p && |q'| == Blocks(m - t, k)
  {
    assert m - (t - 1) == (m - t) + 1;
    assert q == q[..k] + q[k..];
  }

  /** `Flatten` of a slice grown by one. */
  lemma FlattenSnoc<T>(ss: seq<seq<T>>, lo: nat, hi: nat)
    requires lo < hi <= |ss|
    ensures Flatten(ss[lo..hi]) == Flatten(ss[lo..hi - 1]) + ss[hi - 1]
  {
    assert ss[lo..hi][..hi - 1 - lo] == ss[lo..hi - 1];
  }

  /** Extending a block by one call. */
  lemma BlockExtend(squad: seq<PersonId>, k: nat, m: nat,
                    queues: seq<seq<PersonId>>, benches: seq<seq<PersonId>>, start: nat, t: nat)
    requires |queues| == |benches| + 1
    requires k > 0 && 1 < t <= m && start + t <= |benches|
    requires BenchStep(squad, k, queues[start + t - 1], benches[start + t - 1], queues[start + t])
    requires Flatten(benches[start..start + t - 1]) + queues[start + t - 1] == benches[start] + queues[start + 1]
    requires |queues[start + t - 1]| == Blocks(m - (t - 1), k)
    ensures Flatten(benches[start..start + t]) + queues[start + t] == benches[start] + queues[start + 1]
    ensures |queues[start + t]| == Blocks(m - t, k)
  {
    var i := start + t - 1;
    var p := benches[start] + queues[start + 1];
    var handedOut := Flatten(benches[start..i]);
    FlattenSnoc(benches, start, start + t);
    assert Flatten(benches[start..start + t]) == handedOut + benches[i];
    TakeStep(squad, k, m, t, p, handedOut, queues[i], benches[i], queues[i + 1]);
    assert (handedOut + benches[i]) + queues[i + 1] == p;
  }

  /**
   * When `k * m` is the squad size, the `m` calls that start at an empty
   * queue hand out, one after the other, the permutation enqueued by the
   * first of them, and leave the queue empty again.
   */
  lemma {:induction false} RotationBlock(squad: seq<PersonId>, k: nat, m: nat,
                                          queues: seq<seq<PersonId>>, benches: seq<seq<PersonId>>,
                                          start: nat, t: nat)
    requires Trace(squad, k, queues, benches)
    requires k > 0 && |squad| == Blocks(m, k)
    requires start < |benches| && queues[start] == []
    requires 1 <= t <= m && start + t <= |benches|
    ensures multiset(benches[start] + queues[start + 1]) == multiset(squad)
    ensures Flatten(benches[start..start + t]) + queues[start + t] == benches[start] + queues[start + 1]
    ensures |queues[start + t]| == Blocks(m - t, k)
  {
    TraceAt(squad, k, queues, benches, start);
    BlockStart(squad, k, m, benches[start], queues[start + 1]);
    if t == 1 {
      assert benches[start..start + 1] == [benches[start]];
    } else {
      RotationBlock(squad, k, m, queues, benches, start, t - 1);
      var i := start + (t - 1);
      assert i == start + t - 1;
      assert Flatten(benches[start..i]) + queues[i] == benches[start] + queues[start + 1];
      assert |queues[i]| == Blocks(m - (t - 1), k);
      TraceAt(squad, k, queues, benches, i);
      BlockExtend(squad, k, m, queues, benches, start, t);
    }
  }

  /**
   * Fair rotation: when `nBench` divides the squad size, every block of
   * `|squad| / nBench` consecutive benches is a permutation of the squad, so
   * after `b` blocks the benches hold every squad member exactly `b` times.
   */
  lemma {:induction false} RotationFair(squad: seq<PersonId>, k: nat, m: nat,
                                         queues: seq<seq<PersonId>>, benches: seq<seq<PersonId>>, b: nat)
    requires Trace(squad, k, queues, benches)
    requires k > 0 && m > 0 && |squad| == m * k && queues[0] == []
    requires b * m <= |benches|
    ensures queues[b * m] == []
    ensures multiset(Flatten(benches[..b * m])) == Copies(multiset(squad), b)
  {
    if b == 0 {
      assert benches[..0] == [];
    } else {
      RotationFair(squad, k, m, queues, benches, b - 1);
      var start := (b - 1) * m;
      MulSucc(b - 1, m);
      BlocksMul(m, k);
      NextBlock(squad, k, m, queues, benches, start, Copies(multiset(squad), b - 1));
    }
  }

  /** The block of `m` calls from `start` adds one copy of the squad to what
      has been handed out. */
  lemma NextBlock(squad: seq<PersonId>, k: nat, m: nat, queues: seq<seq<PersonId>>, benches: seq<seq<PersonId>>,
                  start: nat, handedOut: multiset<PersonId>)
    requires Trace(squad, k, queues, benches)
    requires k > 0 && m > 0 && |squad| == Blocks(m, k) && start + m <= |benches|
    requires queues[start] == [] && multiset(Flatten(benches[..start])) == handedOut
    ensures queues[start + m] == []
    ensures multiset(Flatten(benches[..start + m])) == handedOut + multiset(squad)
  {
    RotationBlock(squad, k, m, queues, benches, start, m);
    assert |queues[start + m]| == Blocks(0, k) == 0;
    var before, block := benches[..start], benches[start..start + m];
    BlocksSplit(benches, start, start + m);
    AddBlock(before, block, queues[start + m], benches[start] + queues[start + 1], squad);
    assert benches[..start + m] == before + block;
    assert multiset(Flatten(before + block)) == handedOut + multiset(squad);
  }

  /** Handing out a block that is a permutation of the squad adds one copy. */
  lemma AddBlock(before: seq<seq<PersonId>>, block: seq<seq<PersonId>>, q: seq<PersonId>, p: seq<PersonId>,
                 squad: seq<PersonId>)
    requires q == [] && Flatten(block) + q == p && multiset(p) == multiset(squad)
    ensures multiset(Flatten(before + block)) == multiset(Flatten(before)) + multiset(squad)
  {
    FlattenAppend(before, block);
    assert Flatten(block) == p;
  }

  lemma BlocksSplit<T>(ss: seq<T>, lo: nat, hi: nat)
    requires lo <= hi <= |ss|
    ensures ss[..hi] == ss[..lo] + ss[lo..hi]
  {}

  /** `b` copies of a squad without repetition hold everyone `b` times. */
  lemma EachCopied(squad: seq<PersonId>, handedOut: multiset<PersonId>, b: nat)
    requires Distinct(squad) && handedOut == Copies(multiset(squad), b)
    ensures forall x :: x in squad ==> handedOut[x] == b
  {
    DistinctIffCounts(squad);
    forall x | x in squad ensures handedOut[x] == b {
      CopiesCount(multiset(squad), b, x);
      assert multiset(squad)[x] == 1;
    }
  }

  /** `n / k` blocks of `k` make `n`, and `k * n` calls make `k * k` rounds. */
  lemma BlockCount(n: nat, k: nat)
    requires k > 0 && n > 0 && n % k == 0
    ensures n / k > 0 && n == (n / k) * k && k * n == (k * k) * (n / k)
  {
    var m := n / k;
    assert n == m * k;
    assert k * n == k * (m * k) == (k * k) * m;
  }

  /**
   * The unit test's claim: over `nBench * |squad|` calls from a fresh generator
   * whose squad size `nBench` divides, everyone sits out `nBench * nBench` times.
   */
  lemma EveryoneBenchedEqually(squad: seq<PersonId>, k: nat, queues: seq<seq<PersonId>>, benches: seq<seq<PersonId>>)
    requires Trace(squad, k, queues, benches)
    requires Distinct(squad) && k > 0 && |squad| % k == 0 && queues[0] == []
    requires k * |squad| <= |benches|
    ensures forall x :: x in squad ==> multiset(Flatten(benches[..k * |squad|]))[x] == k * k
  {
    if |squad| == 0 {
      return;
    }
    var m := |squad| / k;
    var b := k * k;
    var n := k * |squad|;
    BlockCount(|squad|, k);
    assert b * m == n;
    RotationFair(squad, k, m, queues, benches, b);
    EachCopied(squad, multiset(Flatten(benches[..n])), b);
  }
}
