// Generic list operations the application uses through JavaScript's
// Array.prototype.map and Array.prototype.filter, with the facts about them
// that the task store and the query pipeline rely on.
module Seqs {

  /** `s.map(f)`: one result per element, in the same order. */
  function Map<T, U>(f: T -> U, s: seq<T>): (r: seq<U>)
    ensures |r| == |s|
    ensures forall i :: 0 <= i < |s| ==> r[i] == f(s[i])
  {
    if s == [] then [] else [f(s[0])] + Map(f, s[1..])
  }

  /** `s.filter(p)`: the elements that pass `p`, each as often as in `s`. */
  function Filter<T>(p: T -> bool, s: seq<T>): (r: seq<T>)
    ensures |r| <= |s|
  {
    if s == [] then [] else (if p(s[0]) then [s[0]] else []) + Filter(p, s[1..])
  }

  /** The filter keeps each passing element as often as it occurs, and nothing else. */
  lemma {:induction false} FilterCount<T(!new)>(p: T -> bool, s: seq<T>)
    ensures forall x :: multiset(Filter(p, s))[x] == if p(x) then multiset(s)[x] else 0
    ensures forall x :: x in Filter(p, s) <==> x in s && p(x)
  {
    if s != [] {
      FilterCount(p, s[1..]);
      assert s == [s[0]] + s[1..];
    }
  }

  /** `a` is `b` with some elements left out, the rest kept in order. */
  predicate IsSubsequence<T(==)>(a: seq<T>, b: seq<T>)
    decreases |b|
  {
    if a == [] then true
    else if b == [] then false
    else (a[0] == b[0] && IsSubsequence(a[1..], b[1..])) || IsSubsequence(a, b[1..])
  }

  /** Filtering only drops elements; it never reorders them. */
  lemma {:induction false} FilterIsSubsequence<T(!new)>(p: T -> bool, s: seq<T>)
    ensures IsSubsequence(Filter(p, s), s)
  {
    if s != [] {
      FilterIsSubsequence(p, s[1..]);
      var r := Filter(p, s);
      if p(s[0]) {
        assert r[0] == s[0] && r[1..] == Filter(p, s[1..]);
      } else if r != [] {
        assert r == Filter(p, s[1..]);
      }
    }
  }

  /** When every element passes, the filter returns its input unchanged. */
  lemma {:induction false} FilterKeepsAll<T(!new)>(p: T -> bool, s: seq<T>)
    requires forall x :: x in s ==> p(x)
    ensures Filter(p, s) == s
  {
    if s != [] {
      FilterKeepsAll(p, s[1..]);
      assert s == [s[0]] + s[1..];
    }
  }

  /** When no element passes, the filter returns the empty list. */
  lemma FilterNone<T(!new)>(p: T -> bool, s: seq<T>)
    requires forall x :: x in s ==> !p(x)
    ensures Filter(p, s) == []
  {
  }

  /** Filtering distributes over concatenation. */
  lemma {:induction false} FilterAppend<T(!new)>(p: T -> bool, a: seq<T>, b: seq<T>)
    ensures Filter(p, a + b) == Filter(p, a) + Filter(p, b)
  {
    if a == [] {
      assert a + b == b;
    } else {
      FilterAppend(p, a[1..], b);
      var head := if p(a[0]) then [a[0]] else [];
      assert (a + b)[0] == a[0] && (a + b)[1..] == a[1..] + b;
      calc {
        Filter(p, a + b);
        head + Filter(p, a[1..] + b);
        head + (Filter(p, a[1..]) + Filter(p, b));
        (head + Filter(p, a[1..])) + Filter(p, b);
        Filter(p, a) + Filter(p, b);
      }
    }
  }

  /** Filtering a list with `x` spliced in at `j`, in terms of the two halves. */
  lemma FilterSplice<T(!new)>(p: T -> bool, s: seq<T>, j: int, x: T)
    requires 0 <= j <= |s|
    ensures Filter(p, s) == Filter(p, s[..j]) + Filter(p, s[j..])
    ensures Filter(p, s[..j] + [x] + s[j..]) == Filter(p, s[..j]) + Filter(p, [x]) + Filter(p, s[j..])
  {
    assert s == s[..j] + s[j..];
    FilterAppend(p, s[..j], s[j..]);
    FilterAppend(p, s[..j] + [x], s[j..]);
    FilterAppend(p, s[..j], [x]);
  }

  /** Splicing `x` into a list adds exactly one `x` to its elements. */
  lemma SpliceMultiset<T>(s: seq<T>, j: int, x: T)
    requires 0 <= j <= |s|
    ensures multiset(s[..j] + [x] + s[j..]) == multiset(s) + multiset{x}
  {
    assert s == s[..j] + s[j..];
  }
}
