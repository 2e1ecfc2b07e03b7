/** `Array.prototype.filter` and the facts the site relies on when it
    filters a list: the kept elements are exactly those satisfying the
    predicate, they stay in their original order, and filtering twice is the
    same as filtering once. */
module Seqs {

  /** `s.filter(p)`. */
  function Filter<T>(p: T -> bool, s: seq<T>): (r: seq<T>)
    ensures |r| <= |s|
    ensures forall x :: x in r ==> p(x) && x in s
  {
    if |s| == 0 then []
    else if p(s[0]) then [s[0]] + Filter(p, s[1..])
    else Filter(p, s[1..])
  }

  /** `a` can be obtained from `b` by deleting elements, keeping the order
      of the rest. */
  ghost predicate IsSubsequence<T>(a: seq<T>, b: seq<T>)
    decreases |b|
  {
    if |a| == 0 then true
    else if |b| == 0 then false
    else if a[0] == b[0] then IsSubsequence(a[1..], b[1..])
    else IsSubsequence(a, b[1..])
  }

  /** The filtered list preserves the relative order of what it keeps. */
  lemma {:induction false} FilterIsSubsequence<T>(p: T -> bool, s: seq<T>)
    ensures IsSubsequence(Filter(p, s), s)
  {
    if |s| > 0 {
      FilterIsSubsequence(p, s[1..]);
      var rest := Filter(p, s[1..]);
      if p(s[0]) {
        assert Filter(p, s) == [s[0]] + rest;
        assert (Filter(p, s))[1..] == rest;
      } else {
        if |rest| > 0 {
          KeptIsMember(p, s[1..], rest[0]);
          assert IsSubsequence(rest, s[1..]);
          assert rest[0] != s[0];
        }
      }
    }
  }

  lemma KeptIsMember<T>(p: T -> bool, s: seq<T>, x: T)
    requires x in Filter(p, s)
    ensures p(x)
  {
  }

  /** Every element satisfying the predicate is kept as many times as it
      occurs, and every other element is dropped. */
  lemma {:induction false} FilterCounts<T>(p: T -> bool, s: seq<T>)
    ensures forall x :: multiset(Filter(p, s))[x] == if p(x) then multiset(s)[x] else 0
  {
    if |s| > 0 {
      FilterCounts(p, s[1..]);
      assert s == [s[0]] + s[1..];
      assert multiset(s) == multiset{s[0]} + multiset(s[1..]);
    }
  }

  /** Filtering an already-filtered list changes nothing. */
  lemma {:induction false} FilterIdempotent<T>(p: T -> bool, s: seq<T>)
    ensures Filter(p, Filter(p, s)) == Filter(p, s)
  {
    if |s| > 0 {
      FilterIdempotent(p, s[1..]);
      if p(s[0]) {
        assert ([s[0]] + Filter(p, s[1..]))[1..] == Filter(p, s[1..]);
      }
    }
  }

  /** When every element satisfies the predicate the filter keeps the whole
      list. */
  lemma {:induction false} FilterKeepsAll<T>(p: T -> bool, s: seq<T>)
    requires forall i :: 0 <= i < |s| ==> p(s[i])
    ensures Filter(p, s) == s
  {
    if |s| > 0 {
      FilterKeepsAll(p, s[1..]);
      assert s == [s[0]] + s[1..];
    }
  }
}
