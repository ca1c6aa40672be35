/** Ordering of fetch results. A Core Data fetch with sort descriptors
    returns its objects ordered by a comparison; the model sorts with an
    insertion sort, which is stable, under any total preorder. */
module Sorting {

  /** `le` is total and transitive, which is what a sort descriptor's
      comparison provides. */
  ghost predicate TotalPreorder<T(!new)>(le: (T, T) -> bool) {
    && (forall x, y :: le(x, y) || le(y, x))
    && (forall x, y, z :: le(x, y) && le(y, z) ==> le(x, z))
  }

  predicate SortedBy<T>(s: seq<T>, le: (T, T) -> bool) {
    forall i, j | 0 <= i < j < |s| :: le(s[i], s[j])
  }

  function Insert<T>(x: T, s: seq<T>, le: (T, T) -> bool): (r: seq<T>)
    ensures multiset(r) == multiset(s) + multiset{x}
  {
    if s == [] then [x]
    else if le(x, s[0]) then [x] + s
    else
      assert s == [s[0]] + s[1..];
      [s[0]] + Insert(x, s[1..], le)
  }

  function SortBy<T>(s: seq<T>, le: (T, T) -> bool): (r: seq<T>)
    ensures multiset(r) == multiset(s)
  {
    if s == [] then []
    else
      assert s == [s[0]] + s[1..];
      Insert(s[0], SortBy(s[1..], le), le)
  }

  lemma {:induction false} InsertSorted<T(!new)>(x: T, s: seq<T>, le: (T, T) -> bool)
    requires TotalPreorder(le)
    requires SortedBy(s, le)
    ensures SortedBy(Insert(x, s, le), le)
  {
    if s != [] && !le(x, s[0]) {
      TailSorted(s, le);
      InsertSorted(x, s[1..], le);
      var tail := Insert(x, s[1..], le);
      forall k | 0 <= k < |tail| ensures le(s[0], tail[k]) {
        ElementOfInsert(x, s[1..], le, tail[k]);
        if tail[k] != x {
          var m :| 0 <= m < |s[1..]| && s[1..][m] == tail[k];
          assert s[m + 1] == tail[k];
        }
      }
      ConsSorted(s[0], tail, le);
    }
  }

  lemma TailSorted<T>(s: seq<T>, le: (T, T) -> bool)
    requires s != [] && SortedBy(s, le)
    ensures SortedBy(s[1..], le)
  {
    forall i, j | 0 <= i < j < |s[1..]| ensures le(s[1..][i], s[1..][j]) {
      assert s[1..][i] == s[i + 1] && s[1..][j] == s[j + 1];
    }
  }

  /** What `Insert` returns is the inserted element or one of `s`. */
  lemma ElementOfInsert<T>(x: T, s: seq<T>, le: (T, T) -> bool, y: T)
    requires y in Insert(x, s, le)
    ensures y == x || y in s
  {
    assert y in multiset(Insert(x, s, le));
  }

  lemma ConsSorted<T>(h: T, t: seq<T>, le: (T, T) -> bool)
    requires SortedBy(t, le) && forall k | 0 <= k < |t| :: le(h, t[k])
    ensures SortedBy([h] + t, le)
  {
    var r := [h] + t;
    forall i, j | 0 <= i < j < |r| ensures le(r[i], r[j]) {
      if i == 0 {
        assert r[j] == t[j - 1];
      } else {
        assert r[i] == t[i - 1] && r[j] == t[j - 1];
      }
    }
  }

  lemma {:induction false} SortBySorted<T(!new)>(s: seq<T>, le: (T, T) -> bool)
    requires TotalPreorder(le)
    ensures SortedBy(SortBy(s, le), le)
  {
    if s != [] {
      SortBySorted(s[1..], le);
      InsertSorted(s[0], SortBy(s[1..], le), le);
    }
  }

  /** Lexicographic order on strings by character code, as a literal
      string comparison orders names. */
  predicate StringLe(a: string, b: string) {
    if a == [] then true
    else if b == [] then false
    else a[0] < b[0] || (a[0] == b[0] && StringLe(a[1..], b[1..]))
  }

  lemma {:induction false} StringLeTotal(a: string, b: string)
    ensures StringLe(a, b) || StringLe(b, a)
  {
    if a != [] && b != [] && a[0] == b[0] {
      StringLeTotal(a[1..], b[1..]);
    }
  }

  lemma {:induction false} StringLeTransitive(a: string, b: string, c: string)
    requires StringLe(a, b) && StringLe(b, c)
    ensures StringLe(a, c)
  {
    if a != [] && b != [] && c != [] && a[0] == b[0] && b[0] == c[0] {
      StringLeTransitive(a[1..], b[1..], c[1..]);
    }
  }
}
