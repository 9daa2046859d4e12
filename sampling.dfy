/**
 * The sampling helpers of src/model/scheduling.ts: the shuffle, the two set
 * operations and the sample that deletes what it draws from its pool.
 */
module Sampling {
  import opened Collections
  import opened ScheduleModel

  /**
   * `Math.random()` as an oracle. Each draw takes the next number of a tape
   * fixed when the object is made (0 once the tape is used up); `Below(n)` is
   * `Math.floor(n * Math.random())`, and `Math.random() * k < 1` is
   * `Below(k) == 0`. Every property proved about a caller holds for every tape.
   */
  class Random {
    var draws: seq<nat>

    constructor (draws: seq<nat>)
      ensures this.draws == draws
    {
      this.draws := draws;
    }

    method Below(n: nat) returns (j: nat)
      requires n > 0
      modifies this
      ensures j < n
      ensures draws == if old(draws) == [] then [] else old(draws)[1..]
    {
      if draws == [] {
        j := 0;
      } else {
        j := draws[0] % n;
        draws := draws[1..];
      }
    }
  }

  /** A JavaScript `Set<PersonId>` that a callee changes in place. */
  class PersonSet {
    var elems: seq<PersonId>

    /** `new Set(xs)` */
    constructor (xs: seq<PersonId>)
      ensures elems == Dedup(xs)
    {
      elems := Dedup(xs);
    }

    /** `set.delete(x)` */
    method Delete(x: PersonId)
      modifies this
      ensures elems == Without(old(elems), [x])
    {
      elems := Without(elems, [x]);
    }
  }

  /** Inside-out Fisher-Yates: a permutation of `xs`. */
  method Shuffled<T>(xs: seq<T>, rng: Random) returns (shuffledXs: seq<T>)
    modifies rng
    ensures multiset(shuffledXs) == multiset(xs)
  {
    shuffledXs := [];
    var n := 1;
    var i := 0;
    while i < |xs|
      invariant 0 <= i <= |xs| && n == i + 1 && |shuffledXs| == i
      invariant multiset(shuffledXs) == multiset(xs[..i])
    {
      var x := xs[i];
      var j := rng.Below(n);
      if j == n - 1 {
        shuffledXs := shuffledXs + [x];
      } else {
        var moved := shuffledXs[j];
        shuffledXs := shuffledXs + [moved];
        shuffledXs := shuffledXs[j := x];
      }
      PrefixSnoc(xs, i);
      n := n + 1;
      i := i + 1;
    }
    assert xs[..i] == xs;
  }

  /** The members of `a` that are not members of `b`, in the order of `a`. */
  method SetDifference(a: seq<PersonId>, b: seq<PersonId>) returns (result: seq<PersonId>)
    ensures result == Without(a, b)
  {
    result := [];
    var i := 0;
    while i < |a|
      invariant 0 <= i <= |a|
      invariant result == Without(a[..i], b)
    {
      PrefixOfPrefix(a, i, i + 1);
      if a[i] !in b {
        result := result + [a[i]];
      }
      i := i + 1;
    }
    assert a[..i] == a;
  }

  /** `new Set(a)` followed by adding every member of `b`. */
  method SetUnion(a: seq<PersonId>, b: seq<PersonId>) returns (result: seq<PersonId>)
    ensures result == Dedup(a + b)
  {
    result := Dedup(a);
    var i := 0;
    assert a + b[..0] == a;
    while i < |b|
      invariant 0 <= i <= |b|
      invariant result == Dedup(a + b[..i])
    {
      AppendPrefixSnoc(a, b, i);
      DedupSnoc(a + b[..i], b[i]);
      if b[i] !in result {
        result := result + [b[i]];
      }
      i := i + 1;
    }
    assert a + b[..i] == a + b;
  }

  /** The first `n` of a shuffle of the allowed members are `n` distinct allowed members. */
  lemma PrefixOfShuffle(elems: seq<PersonId>, forbidden: seq<PersonId>, shuffled: seq<PersonId>, n: nat)
    requires Distinct(elems)
    requires multiset(shuffled) == multiset(Without(elems, forbidden))
    requires n <= |Without(elems, forbidden)|
    ensures n <= |shuffled|
    ensures Dedup(shuffled[..n]) == shuffled[..n] && Distinct(shuffled[..n])
    ensures Within(shuffled[..n], Without(elems, forbidden))
  {
    var allowed := Without(elems, forbidden);
    WithoutDistinct(elems, forbidden);
    DistinctPermutation(allowed, shuffled);
    assert |shuffled| == |multiset(shuffled)| == |allowed|;
    DistinctSlice(shuffled, 0, n);
    DedupOfDistinct(shuffled[..n]);
    forall x | x in shuffled[..n] ensures x in allowed {
      assert x in shuffled;
      assert multiset(shuffled)[x] > 0;
    }
  }

  /** `for (const x of result) xs.delete(x)` */
  method DeleteAll(xs: PersonSet, result: seq<PersonId>)
    modifies xs
    ensures xs.elems == Without(old(xs.elems), result)
  {
    ghost var before := xs.elems;
    WithoutNothing(before);
    var i := 0;
    while i < |result|
      invariant 0 <= i <= |result|
      invariant xs.elems == Without(before, result[..i])
    {
      WithoutWithout(before, result[..i], [result[i]]);
      PrefixSnoc(result, i);
      xs.Delete(result[i]);
      i := i + 1;
    }
    assert result[..i] == result;
  }

  /**
   * Draws `n` members of `xs` that are not `forbidden` and deletes them from
   * `xs`; fails, leaving `xs` alone, when fewer than `n` members are allowed.
   */
  method SampleWithoutInPlace(xs: PersonSet, n: nat, forbidden: seq<PersonId>, rng: Random)
    returns (r: Result<seq<PersonId>>)
    requires Distinct(xs.elems)
    modifies xs, rng
    ensures r.Err? <==> |Without(old(xs.elems), forbidden)| < n
    ensures r.Err? ==> r.error == SampleTooSmall && xs.elems == old(xs.elems)
    ensures r.Ok? ==> |r.value| == n && Distinct(r.value)
    ensures r.Ok? ==> Within(r.value, Without(old(xs.elems), forbidden))
    ensures r.Ok? ==> xs.elems == Without(old(xs.elems), r.value)
  {
    var allowed := SetDifference(xs.elems, forbidden);
    if |allowed| < n {
      return Err(SampleTooSmall);
    }
    var shuffledAllowed := Shuffled(allowed, rng);
    PrefixOfShuffle(xs.elems, forbidden, shuffledAllowed, n);
    var result := Dedup(shuffledAllowed[..n]);
    DeleteAll(xs, result);
    return Ok(result);
  }
}
