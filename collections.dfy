/**
 * Sequences used as the insertion-ordered JavaScript `Set`s and `Array`s of the
 * scheduler, and the facts about them that the other modules rely on.
 *
 * A JavaScript `Set` is modelled as a sequence without duplicates, kept in
 * insertion order (the order in which `for ... of` visits it); `new Set(xs)`
 * is `Dedup(xs)` and "drop every member of `b`" is `Without(a, b)`.
 */
module Collections {

  /** No element occurs twice. */
  predicate Distinct<T(==)>(s: seq<T>) {
    forall i, j :: 0 <= i < j < |s| ==> s[i] != s[j]
  }

  /** No element of `a` is an element of `b`. */
  predicate Disjoint<T(==)>(a: seq<T>, b: seq<T>) {
    forall x :: x in a ==> x !in b
  }

  /** Every element of `a` is an element of `b`. */
  predicate Within<T(==)>(a: seq<T>, b: seq<T>) {
    forall x :: x in a ==> x in b
  }

  /** `new Set(s)`: the elements of `s` in order of first occurrence. */
  function Dedup<T(==)>(s: seq<T>): (r: seq<T>)
    ensures Distinct(r)
    ensures forall x :: x in r ==> x in s
    ensures forall x :: x in s ==> x in r
    ensures |r| <= |s|
  {
    if s == [] then []
    else
      var d := Dedup(s[..|s| - 1]);
      if s[|s| - 1] in d then d else d + [s[|s| - 1]]
  }

  /** A prefix grown by one element. */
  lemma PrefixSnoc<T>(s: seq<T>, i: nat)
    requires i < |s|
    ensures s[..i + 1] == s[..i] + [s[i]]
  {}

  lemma PrefixOfPrefix<T>(s: seq<T>, i: nat, j: nat)
    requires i <= j <= |s|
    ensures s[..j][..i] == s[..i]
  {}

  lemma AppendPrefixSnoc<T>(a: seq<T>, b: seq<T>, i: nat)
    requires i < |b|
    ensures a + b[..i + 1] == (a + b[..i]) + [b[i]]
  {
    PrefixSnoc(b, i);
  }

  /** Appending two elements after `b` in one step or one at a time. */
  lemma AppendTwo<T>(a: seq<T>, b: seq<T>, x: T, y: T)
    ensures a + (b + [x, y]) == a + b + [x] + [y]
  {}

  /** `Dedup` of a sequence grown by one element. */
  lemma DedupSnoc<T>(s: seq<T>, x: T)
    ensures Dedup(s + [x]) == if x in Dedup(s) then Dedup(s) else Dedup(s) + [x]
  {
    assert (s + [x])[..|s|] == s;
  }

  /** The elements of `a` that are not in `b`, in the order of `a`. */
  function Without<T(==)>(a: seq<T>, b: seq<T>): (r: seq<T>)
    ensures forall x :: x in r ==> x in a && x !in b
    ensures forall x :: x in a && x !in b ==> x in r
    ensures |r| <= |a|
  {
    if a == [] then []
    else
      var w := Without(a[..|a| - 1], b);
      if a[|a| - 1] in b then w else w + [a[|a| - 1]]
  }

  /** Concatenation of a sequence of sequences. */
  function Flatten<T>(ss: seq<seq<T>>): seq<T> {
    if ss == [] then [] else Flatten(ss[..|ss| - 1]) + ss[|ss| - 1]
  }

  /** Exchanging the elements at two positions keeps the multiset. */
  lemma UpdateSwap<T>(s: seq<T>, i: nat, j: nat)
    requires i < |s| && j < |s|
    ensures multiset(s[i := s[j]][j := s[i]]) == multiset(s)
  {
    var s1 := s[i := s[j]];
    assert multiset(s1) == multiset(s) - multiset{s[i]} + multiset{s[j]};
    assert multiset(s1[j := s[i]]) == multiset(s1) - multiset{s1[j]} + multiset{s[i]};
  }

  /** `n` copies of the multiset `m`. */
  function Copies<T>(m: multiset<T>, n: nat): multiset<T> {
    if n == 0 then multiset{} else Copies(m, n - 1) + m
  }

  lemma {:induction false} DistinctIffCounts<T>(s: seq<T>)
    ensures Distinct(s) <==> forall x :: multiset(s)[x] <= 1
  {
    if s != [] {
      var s', x := s[..|s| - 1], s[|s| - 1];
      assert s == s' + [x];
      DistinctIffCounts(s');
      if Distinct(s) {
        assert Distinct(s');
        assert x !in s';
      } else {
        var i, j :| 0 <= i < j < |s| && s[i] == s[j];
        if j < |s| - 1 {
          assert !Distinct(s') by { assert s'[i] == s'[j]; }
          var y :| multiset(s')[y] > 1;
          assert multiset(s)[y] >= multiset(s')[y];
        } else {
          assert s'[i] == x;
          assert multiset(s)[x] == multiset(s')[x] + 1;
        }
      }
    }
  }

  lemma DistinctConcat<T>(a: seq<T>, b: seq<T>)
    ensures Distinct(a + b) <==> Distinct(a) && Distinct(b) && Disjoint(a, b)
  {
    if Distinct(a + b) {
      assert Distinct(a) by {
        forall i, j | 0 <= i < j < |a| ensures a[i] != a[j] { assert (a + b)[i] == a[i] && (a + b)[j] == a[j]; }
      }
      assert Distinct(b) by {
        forall i, j | 0 <= i < j < |b| ensures b[i] != b[j] {
          assert (a + b)[|a| + i] == b[i] && (a + b)[|a| + j] == b[j];
        }
      }
      forall x | x in a ensures x !in b {
        var i :| 0 <= i < |a| && a[i] == x;
        forall j | 0 <= j < |b| ensures b[j] != x {
          assert (a + b)[i] == a[i] && (a + b)[|a| + j] == b[j];
        }
      }
    } else if Distinct(a) && Distinct(b) {
      var i, j :| 0 <= i < j < |a + b| && (a + b)[i] == (a + b)[j];
      assert i < |a| <= j;
      assert a[i] in a && b[j - |a|] in b;
    }
  }

  /** Distinctness carries over to every slice of a sequence. */
  lemma DistinctSlice<T>(s: seq<T>, lo: nat, hi: nat)
    requires Distinct(s) && lo <= hi <= |s|
    ensures Distinct(s[lo..hi])
  {
    forall i, j | 0 <= i < j < hi - lo ensures s[lo..hi][i] != s[lo..hi][j] {
      assert s[lo..hi][i] == s[lo + i] && s[lo..hi][j] == s[lo + j];
    }
  }

  /** A sequence with the same multiset as a distinct one is distinct. */
  lemma DistinctPermutation<T>(a: seq<T>, b: seq<T>)
    requires Distinct(a) && multiset(a) == multiset(b)
    ensures Distinct(b)
  {
    DistinctIffCounts(a);
    DistinctIffCounts(b);
  }

  lemma {:induction false} DedupOfDistinct<T>(s: seq<T>)
    requires Distinct(s)
    ensures Dedup(s) == s
  {
    if s != [] {
      var s' := s[..|s| - 1];
      DistinctSlice(s, 0, |s| - 1);
      DedupOfDistinct(s');
      assert s[|s| - 1] !in s';
      assert s == s' + [s[|s| - 1]];
    }
  }

  lemma DisjointSymmetric<T>(a: seq<T>, b: seq<T>)
    requires Disjoint(a, b)
    ensures Disjoint(b, a)
  {}

  /** `new Set(s)` loses nothing exactly when `s` has no duplicates. */
  lemma {:induction false} DedupLength<T>(s: seq<T>)
    ensures |Dedup(s)| == |s| <==> Distinct(s)
  {
    if s != [] {
      var s', x := s[..|s| - 1], s[|s| - 1];
      assert s == s' + [x];
      DedupLength(s');
      DistinctConcat(s', [x]);
    }
  }

  /** How often `y` occurs once the elements of `b` are dropped. */
  lemma {:induction false} WithoutCount<T>(a: seq<T>, b: seq<T>, y: T)
    ensures multiset(Without(a, b))[y] == if y in b then 0 else multiset(a)[y]
  {
    if a != [] {
      var a' := a[..|a| - 1];
      assert a == a' + [a[|a| - 1]];
      WithoutCount(a', b, y);
    }
  }

  lemma WithoutDistinct<T>(a: seq<T>, b: seq<T>)
    requires Distinct(a)
    ensures Distinct(Without(a, b))
  {
    DistinctIffCounts(a);
    forall x ensures multiset(Without(a, b))[x] <= 1 { WithoutCount(a, b, x); }
    DistinctIffCounts(Without(a, b));
  }

  /** Dropping from a distinct `a` the members of `b`, all of which lie in `a`,
      removes exactly `b`. */
  lemma WithoutExact<T>(a: seq<T>, b: seq<T>)
    requires Distinct(a) && Distinct(b) && Within(b, a)
    ensures multiset(Without(a, b)) + multiset(b) == multiset(a)
    ensures |Without(a, b)| == |a| - |b|
  {
    DistinctIffCounts(a);
    DistinctIffCounts(b);
    var both := multiset(Without(a, b)) + multiset(b);
    forall y ensures both[y] == multiset(a)[y] {
      WithoutCount(a, b, y);
    }
    MultisetExt(both, multiset(a));
    assert |both| == |multiset(a)|;
  }

  /** Multisets with the same multiplicities are equal. */
  lemma MultisetExt<T>(m1: multiset<T>, m2: multiset<T>)
    requires forall y :: m1[y] == m2[y]
    ensures m1 == m2
  {}

  /** At most `|G|` members of a distinct `a` are dropped when every dropped
      member lies in `G`. */
  lemma WithoutLowerBound<T>(a: seq<T>, f: seq<T>, g: seq<T>)
    requires Distinct(a)
    requires forall x :: x in a && x in f ==> x in g
    ensures |Without(a, f)| >= |a| - |g|
  {
    var w := multiset(Without(a, f));
    var dropped := multiset(a) - w;
    DistinctIffCounts(a);
    forall y ensures w[y] <= multiset(a)[y] && dropped[y] <= multiset(g)[y] {
      WithoutCount(a, f, y);
      if y in a && y in f { assert y in g; }
    }
    MultisetExt(multiset(a), w + dropped);
    assert dropped <= multiset(g);
    assert multiset(g) == dropped + (multiset(g) - dropped);
  }

  /** Dropping nothing keeps everything. */
  lemma {:induction false} WithoutNothing<T>(a: seq<T>)
    ensures Without(a, []) == a
  {
    if a != [] {
      WithoutNothing(a[..|a| - 1]);
    }
  }

  /** Dropping `b` and then `c` is dropping both at once. */
  lemma {:induction false} WithoutWithout<T>(a: seq<T>, b: seq<T>, c: seq<T>)
    ensures Without(Without(a, b), c) == Without(a, b + c)
  {
    if a != [] {
      WithoutWithout(a[..|a| - 1], b, c);
    }
  }

  lemma {:induction false} FlattenAppend<T>(a: seq<seq<T>>, b: seq<seq<T>>)
    ensures Flatten(a + b) == Flatten(a) + Flatten(b)
  {
    if b == [] {
      assert a + b == a;
    } else {
      var b' := b[..|b| - 1];
      assert (a + b)[..|a + b| - 1] == a + b';
      FlattenAppend(a, b');
    }
  }

  lemma {:induction false} CopiesCount<T>(m: multiset<T>, n: nat, x: T)
    ensures Copies(m, n)[x] == n * m[x]
  {
    if n > 0 {
      CopiesCount(m, n - 1, x);
      MulPred(n, m[x]);
    }
  }

  lemma MulPred(n: nat, c: nat)
    requires n > 0
    ensures n * c == (n - 1) * c + c
  {}
}
