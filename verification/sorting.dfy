/** `Array.prototype.sort` with a comparator, as the language has defined
    it since ECMAScript 2019: a STABLE sort. A comparator `cmp` is modelled
    by the relation `le(a, b) := cmp(a, b) <= 0` ("a may stay before b"),
    which for every comparator the site passes is a total preorder.

    The sort is defined here as an insertion sort, and
    `StableSortIsUnique` shows that the result is the only sorted
    permutation that keeps equivalent elements in their input order; so it
    is exactly what any stable sorting algorithm returns. */
module Sorting {

  /** Every two elements are comparable and the order is transitive
      (`localeCompare` and numeric differences both give such orders;
      distinct elements may still compare equal). */
  ghost predicate TotalPreorder<T(!new)>(le: (T, T) -> bool) {
    && (forall a, b :: le(a, b) || le(b, a))
    && (forall a, b, c :: le(a, b) && le(b, c) ==> le(a, c))
  }

  /** Every element may stay before every later one. */
  ghost predicate SortedBy<T>(le: (T, T) -> bool, s: seq<T>) {
    forall i, j :: 0 <= i < j < |s| ==> le(s[i], s[j])
  }

  /** The comparator reports 0 both ways: neither must move past the other. */
  predicate Equivalent<T>(le: (T, T) -> bool, a: T, b: T) {
    le(a, b) && le(b, a)
  }

  /** The elements of `s` that compare equal to `p`, in their order in `s`. */
  function Ties<T>(le: (T, T) -> bool, p: T, s: seq<T>): seq<T> {
    if |s| == 0 then []
    else if Equivalent(le, p, s[0]) then [s[0]] + Ties(le, p, s[1..])
    else Ties(le, p, s[1..])
  }

  /** `output` keeps every group of mutually equivalent elements in the
      order the group had in `input`. */
  ghost predicate Stable<T(!new)>(le: (T, T) -> bool, input: seq<T>, output: seq<T>) {
    forall p :: Ties(le, p, output) == Ties(le, p, input)
  }

  /** Places `x` before the first element it may precede. */
  function Insert<T>(le: (T, T) -> bool, x: T, ys: seq<T>): (r: seq<T>)
    ensures multiset(r) == multiset(ys) + multiset{x}
  {
    if |ys| == 0 then [x]
    else if le(x, ys[0]) then [x] + ys
    else
      assert ys == [ys[0]] + ys[1..];
      [ys[0]] + Insert(le, x, ys[1..])
  }

  /** The stable sort of `s` under `le`: a permutation of `s`. */
  function StableSort<T>(le: (T, T) -> bool, s: seq<T>): (r: seq<T>)
    ensures multiset(r) == multiset(s)
    ensures |r| == |s|
  {
    if |s| == 0 then []
    else
      assert s == [s[0]] + s[1..];
      Insert(le, s[0], StableSort(le, s[1..]))
  }

  lemma {:induction false} InsertSorted<T(!new)>(le: (T, T) -> bool, x: T, ys: seq<T>)
    requires TotalPreorder(le)
    requires SortedBy(le, ys)
    ensures SortedBy(le, Insert(le, x, ys))
  {
    if |ys| > 0 && !le(x, ys[0]) {
      var tail := Insert(le, x, ys[1..]);
      InsertSorted(le, x, ys[1..]);
      forall k | 0 <= k < |tail| ensures le(ys[0], tail[k]) {
        assert tail[k] in multiset(tail);
        if tail[k] != x {
          assert tail[k] in multiset(ys[1..]);
          var j :| 0 <= j < |ys[1..]| && ys[1..][j] == tail[k];
          assert ys[j + 1] == tail[k];
        }
      }
    }
  }

  /** The result of the sort is in order. */
  lemma {:induction false} StableSortSorted<T(!new)>(le: (T, T) -> bool, s: seq<T>)
    requires TotalPreorder(le)
    ensures SortedBy(le, StableSort(le, s))
  {
    if |s| > 0 {
      StableSortSorted(le, s[1..]);
      InsertSorted(le, s[0], StableSort(le, s[1..]));
    }
  }

  lemma {:induction false} InsertTies<T(!new)>(le: (T, T) -> bool, p: T, x: T, ys: seq<T>)
    requires TotalPreorder(le)
    ensures Ties(le, p, Insert(le, x, ys))
            == (if Equivalent(le, p, x) then [x] else []) + Ties(le, p, ys)
  {
    if |ys| > 0 {
      if le(x, ys[0]) {
        assert ([x] + ys)[1..] == ys;
      } else {
        InsertTies(le, p, x, ys[1..]);
        var r := [ys[0]] + Insert(le, x, ys[1..]);
        assert r[1..] == Insert(le, x, ys[1..]);
        if Equivalent(le, p, x) {
          assert !Equivalent(le, p, ys[0]);
        }
      }
    }
  }

  /** The sort keeps equivalent elements in their input order. */
  lemma {:induction false} StableSortStable<T(!new)>(le: (T, T) -> bool, s: seq<T>)
    requires TotalPreorder(le)
    ensures Stable(le, s, StableSort(le, s))
  {
    if |s| > 0 {
      StableSortStable(le, s[1..]);
      forall p ensures Ties(le, p, StableSort(le, s)) == Ties(le, p, s) {
        InsertTies(le, p, s[0], StableSort(le, s[1..]));
      }
    }
  }

  /** The head of a sorted list may precede each of its elements. */
  lemma HeadFirst<T(!new)>(le: (T, T) -> bool, s: seq<T>, x: T)
    requires TotalPreorder(le)
    requires SortedBy(le, s) && x in s
    ensures le(s[0], x)
  {
    var j :| 0 <= j < |s| && s[j] == x;
    if j == 0 {
      assert le(x, x) || le(x, x);
    }
  }

  /** Two sorted permutations of each other that order their ties alike
      start with the same element. */
  lemma SameHead<T(!new)>(le: (T, T) -> bool, a: seq<T>, b: seq<T>)
    requires TotalPreorder(le)
    requires SortedBy(le, a) && SortedBy(le, b)
    requires multiset(a) == multiset(b) && |a| > 0
    requires Ties(le, a[0], a) == Ties(le, a[0], b)
    ensures |b| > 0 && a[0] == b[0]
  {
    assert a[0] in multiset(b);
    assert b[0] in multiset(a);
    HeadFirst(le, b, a[0]);
    HeadFirst(le, a, b[0]);
    HeadFirst(le, a, a[0]);
    HeadTies(le, a, b);
  }

  lemma HeadTies<T>(le: (T, T) -> bool, a: seq<T>, b: seq<T>)
    requires |a| > 0 && |b| > 0
    requires le(a[0], a[0]) && le(a[0], b[0]) && le(b[0], a[0])
    requires Ties(le, a[0], a) == Ties(le, a[0], b)
    ensures a[0] == b[0]
  {
    assert Ties(le, a[0], a) == [a[0]] + Ties(le, a[0], a[1..]);
    assert Ties(le, a[0], b) == [b[0]] + Ties(le, a[0], b[1..]);
  }

  lemma SameTailTies<T>(le: (T, T) -> bool, p: T, a: seq<T>, b: seq<T>)
    requires |a| > 0 && |b| > 0 && a[0] == b[0]
    requires Ties(le, p, a) == Ties(le, p, b)
    ensures Ties(le, p, a[1..]) == Ties(le, p, b[1..])
  {
    if Equivalent(le, p, a[0]) {
      assert Ties(le, p, a)[1..] == Ties(le, p, a[1..]);
      assert Ties(le, p, b)[1..] == Ties(le, p, b[1..]);
    }
  }

  lemma SameTailMultiset<T>(a: seq<T>, b: seq<T>)
    requires |a| > 0 && |b| > 0 && a[0] == b[0]
    requires multiset(a) == multiset(b)
    ensures multiset(a[1..]) == multiset(b[1..])
  {
    assert a == [a[0]] + a[1..];
    assert b == [b[0]] + b[1..];
    assert multiset(a[1..]) == multiset(a) - multiset{a[0]};
    assert multiset(b[1..]) == multiset(b) - multiset{b[0]};
  }

  /** A sorted, stable permutation of a list is unique: two lists that are
      both sorted, hold the same elements, and order every group of
      equivalent elements alike are equal. */
  lemma {:induction false} SortedStableUnique<T(!new)>(le: (T, T) -> bool, a: seq<T>, b: seq<T>)
    requires TotalPreorder(le)
    requires SortedBy(le, a) && SortedBy(le, b)
    requires multiset(a) == multiset(b)
    requires forall p :: Ties(le, p, a) == Ties(le, p, b)
    ensures a == b
    decreases |a|
  {
    if |a| == 0 {
      assert |multiset(b)| == 0;
    } else {
      SameHead(le, a, b);
      SameTailMultiset(a, b);
      forall p ensures Ties(le, p, a[1..]) == Ties(le, p, b[1..]) {
        SameTailTies(le, p, a, b);
      }
      SortedStableUnique(le, a[1..], b[1..]);
      assert a == [a[0]] + a[1..];
      assert b == [b[0]] + b[1..];
    }
  }

  /** `StableSort` is exactly the stable sort: it is sorted, a permutation
      and stable, and it is the only list with those three properties. */
  lemma StableSortIsUnique<T(!new)>(le: (T, T) -> bool, s: seq<T>, out: seq<T>)
    requires TotalPreorder(le)
    requires SortedBy(le, out) && multiset(out) == multiset(s) && Stable(le, s, out)
    ensures out == StableSort(le, s)
  {
    StableSortSorted(le, s);
    StableSortStable(le, s);
    SortedStableUnique(le, out, StableSort(le, s));
  }
}
