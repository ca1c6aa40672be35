/** Sequence helpers shared by the view models and the store: filtering
    (Swift's `filter` and Core Data predicates), order-preserving
    subsequences, and keys that are distinct along a sequence. */
module Seqs {

  /** The elements of `s` that satisfy `p`, in their original order. */
  function Filter<T(!new)>(s: seq<T>, p: T -> bool): (r: seq<T>)
    ensures |r| <= |s|
    ensures forall x :: x in r <==> x in s && p(x)
    ensures forall k :: 0 <= k < |r| ==> p(r[k])
  {
    if s == [] then []
    else (if p(s[0]) then [s[0]] else []) + Filter(s[1..], p)
  }

  /** `a` is obtained from `b` by dropping elements, keeping the order. */
  predicate IsSubsequence<T(==)>(a: seq<T>, b: seq<T>)
    decreases |b|
  {
    if a == [] then true
    else if b == [] then false
    else (a[0] == b[0] && IsSubsequence(a[1..], b[1..])) || IsSubsequence(a, b[1..])
  }

  lemma {:induction false} FilterIsSubsequence<T(!new)>(s: seq<T>, p: T -> bool)
    ensures IsSubsequence(Filter(s, p), s)
  {
    if s != [] {
      FilterIsSubsequence(s[1..], p);
      var rest := Filter(s[1..], p);
      if p(s[0]) {
        assert Filter(s, p) == [s[0]] + rest;
        assert ([s[0]] + rest)[1..] == rest;
      } else {
        assert Filter(s, p) == rest;
        if rest != [] {
          assert IsSubsequence(rest, s[1..]);
        }
      }
    }
  }

  lemma {:induction false} FilterAppend<T(!new)>(a: seq<T>, b: seq<T>, p: T -> bool)
    ensures Filter(a + b, p) == Filter(a, p) + Filter(b, p)
  {
    if a == [] {
      assert a + b == b;
    } else {
      assert (a + b)[0] == a[0];
      assert (a + b)[1..] == a[1..] + b;
      FilterAppend(a[1..], b, p);
    }
  }

  /** Filtering twice is filtering once by the conjunction. */
  lemma {:induction false} FilterTwice<T(!new)>(s: seq<T>, p: T -> bool, q: T -> bool, both: T -> bool)
    requires forall x :: both(x) == (p(x) && q(x))
    ensures Filter(Filter(s, p), q) == Filter(s, both)
  {
    if s != [] {
      var rest := Filter(s[1..], p);
      FilterTwice(s[1..], p, q, both);
      assert both(s[0]) == (p(s[0]) && q(s[0]));
      if p(s[0]) {
        var r := [s[0]] + rest;
        assert Filter(s, p) == r;
        assert r[0] == s[0] && r[1..] == rest;
        assert Filter(r, q) == (if q(s[0]) then [s[0]] else []) + Filter(rest, q);
      } else {
        assert Filter(s, p) == rest;
      }
    }
  }

  /** Filters by predicates that agree on the elements give the same result. */
  lemma {:induction false} FilterCongruent<T(!new)>(s: seq<T>, p: T -> bool, q: T -> bool)
    requires forall x :: x in s ==> p(x) == q(x)
    ensures Filter(s, p) == Filter(s, q)
  {
    if s != [] {
      FilterCongruent(s[1..], p, q);
    }
  }

  /** If `p` implies `q`, fewer elements pass `p` than pass `q`. */
  lemma {:induction false} FilterMonotone<T(!new)>(s: seq<T>, p: T -> bool, q: T -> bool)
    requires forall x :: x in s && p(x) ==> q(x)
    ensures |Filter(s, p)| <= |Filter(s, q)|
  {
    if s != [] {
      FilterMonotone(s[1..], p, q);
    }
  }

  /** The elements passing `p` split into those passing `q` and the rest. */
  lemma {:induction false} FilterSplitCount<T(!new)>(s: seq<T>, p: T -> bool, pq: T -> bool, pNotQ: T -> bool, q: T -> bool)
    requires forall x :: pq(x) == (p(x) && q(x))
    requires forall x :: pNotQ(x) == (p(x) && !q(x))
    ensures |Filter(s, p)| == |Filter(s, pq)| + |Filter(s, pNotQ)|
  {
    if s != [] {
      FilterSplitCount(s[1..], p, pq, pNotQ, q);
    }
  }

  /** The values of `key` along `s` are pairwise distinct. */
  ghost predicate DistinctBy<T, K>(s: seq<T>, key: T -> K) {
    forall i, j | 0 <= i < j < |s| :: key(s[i]) != key(s[j])
  }

  lemma {:induction false} FilterDistinctBy<T(!new), K>(s: seq<T>, p: T -> bool, key: T -> K)
    requires DistinctBy(s, key)
    ensures DistinctBy(Filter(s, p), key)
  {
    if s != [] {
      var rest := Filter(s[1..], p);
      assert DistinctBy(s[1..], key) by {
        forall i, j | 0 <= i < j < |s[1..]| ensures key(s[1..][i]) != key(s[1..][j]) {
          assert s[1..][i] == s[i + 1] && s[1..][j] == s[j + 1];
        }
      }
      FilterDistinctBy(s[1..], p, key);
      if p(s[0]) {
        var r := [s[0]] + rest;
        forall i, j | 0 <= i < j < |r| ensures key(r[i]) != key(r[j]) {
          if i == 0 {
            assert r[j] in s[1..];
            var m :| 0 <= m < |s[1..]| && s[1..][m] == r[j];
            assert s[m + 1] == r[j];
          } else {
            assert r[i] == rest[i - 1] && r[j] == rest[j - 1];
          }
        }
      }
    }
  }

  lemma DistinctByAppend<T, K>(s: seq<T>, x: T, key: T -> K)
    requires DistinctBy(s, key)
    requires forall y :: y in s ==> key(y) != key(x)
    ensures DistinctBy(s + [x], key)
  {
    var r := s + [x];
    forall i, j | 0 <= i < j < |r| ensures key(r[i]) != key(r[j]) {
      if j == |s| {
        assert r[i] == s[i];
      } else {
        assert r[i] == s[i] && r[j] == s[j];
      }
    }
  }
}
