/** The string operations the search fields use: `lowercased()` and
    `contains(_:)`. Lower-casing is modelled on ASCII letters only. */
module Text {

  function LowerChar(c: char): (r: char)
    ensures 'A' <= c <= 'Z' ==> r as int == c as int + 32
    ensures !('A' <= c <= 'Z') ==> r == c
    ensures !('A' <= r <= 'Z')
  {
    if 'A' <= c <= 'Z' then (c as int + 32) as char else c
  }

  /** Swift's `lowercased()`, restricted to ASCII case mapping. */
  function Lower(s: string): (r: string)
    ensures |r| == |s|
    ensures forall k :: 0 <= k < |s| ==> r[k] == LowerChar(s[k])
  {
    seq(|s|, k requires 0 <= k < |s| => LowerChar(s[k]))
  }

  /** `needle` occurs in `hay` starting at position `i`. */
  predicate OccursAt(hay: string, needle: string, i: int) {
    0 <= i <= |hay| - |needle| && hay[i..i + |needle|] == needle
  }

  /** `needle` occurs as a contiguous block of `hay`. */
  predicate Contains(hay: string, needle: string) {
    exists i | 0 <= i <= |hay| :: OccursAt(hay, needle, i)
  }

  lemma LowerIdempotent(s: string)
    ensures Lower(Lower(s)) == Lower(s)
  {
  }

  lemma LowerSlice(s: string, i: int, j: int)
    requires 0 <= i <= j <= |s|
    ensures Lower(s)[i..j] == Lower(s[i..j])
  {
  }

  /** A substring of a substring is a substring. */
  lemma ContainsTransitive(a: string, b: string, c: string)
    requires Contains(a, b) && Contains(b, c)
    ensures Contains(a, c)
  {
    var i :| 0 <= i <= |a| && OccursAt(a, b, i);
    var j :| 0 <= j <= |b| && OccursAt(b, c, j);
    assert 0 <= i <= |a| - |b| && a[i..i + |b|] == b;
    assert 0 <= j <= |b| - |c| && b[j..j + |c|] == c;
    forall k | 0 <= k < |c| ensures a[i + j..i + j + |c|][k] == c[k] {
      assert a[i + j + k] == a[i..i + |b|][j + k] == b[j + k];
    }
    assert OccursAt(a, c, i + j);
  }

  /** Lower-casing keeps every occurrence in place. */
  lemma LowerKeepsContains(a: string, b: string)
    requires Contains(a, b)
    ensures Contains(Lower(a), Lower(b))
  {
    var i :| 0 <= i <= |a| && OccursAt(a, b, i);
    assert 0 <= i <= |a| - |b| && a[i..i + |b|] == b;
    LowerSlice(a, i, i + |b|);
    assert OccursAt(Lower(a), Lower(b), i);
  }

  lemma ContainsEmpty(a: string)
    ensures Contains(a, "")
  {
    assert OccursAt(a, "", 0);
  }
}
