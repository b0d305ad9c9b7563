/** Stable insertion sort and order-preserving filtering over any total
    preorder: the shape of pandas' multi-column `sort_values` and of every
    row filter in the modelled code.
 */
module Sorting {

  /** `le` is total and transitive: a sort key order. */
  ghost predicate TotalPreorder<T(!new)>(le: (T, T) -> bool)
  {
    (forall a, b :: le(a, b) || le(b, a)) &&
    (forall a, b, c :: le(a, b) && le(b, c) ==> le(a, c))
  }

  predicate SortedBy<T>(le: (T, T) -> bool, s: seq<T>)
  {
    forall i, j :: 0 <= i < j < |s| ==> le(s[i], s[j])
  }

  /** Inserts `x` after every element that does not sort after it. */
  function InsertBy<T>(le: (T, T) -> bool, x: T, s: seq<T>): seq<T>
  {
    if |s| == 0 then [x]
    else if !le(s[0], x) then [x] + s
    else [s[0]] + InsertBy(le, x, s[1..])
  }

  /** Insertion sort, left to right: elements that compare equal keep their
      relative order. */
  function SortBy<T>(le: (T, T) -> bool, s: seq<T>): seq<T>
  {
    if |s| == 0 then []
    else InsertBy(le, s[|s| - 1], SortBy(le, s[..|s| - 1]))
  }

  lemma {:induction false} InsertBySpec<T(!new)>(le: (T, T) -> bool, x: T, s: seq<T>)
    requires TotalPreorder(le) && SortedBy(le, s)
    ensures |InsertBy(le, x, s)| == |s| + 1
    ensures multiset(InsertBy(le, x, s)) == multiset(s) + multiset{x}
    ensures SortedBy(le, InsertBy(le, x, s))
  {
    if |s| == 0 {
    } else if !le(s[0], x) {
      assert s == [s[0]] + s[1..];
    } else {
      var tail := InsertBy(le, x, s[1..]);
      InsertBySpec(le, x, s[1..]);
      assert s == [s[0]] + s[1..];
      forall j | 0 <= j < |tail|
        ensures le(s[0], tail[j])
      {
        assert tail[j] in multiset(s[1..]) + multiset{x};
        if tail[j] != x {
          assert tail[j] in s[1..];
        }
      }
    }
  }

  /** Sorting yields a sorted permutation of its input. */
  lemma {:induction false} SortBySpec<T(!new)>(le: (T, T) -> bool, s: seq<T>)
    requires TotalPreorder(le)
    ensures |SortBy(le, s)| == |s|
    ensures multiset(SortBy(le, s)) == multiset(s)
    ensures SortedBy(le, SortBy(le, s))
  {
    if |s| > 0 {
      var n := |s| - 1;
      SortBySpec(le, s[..n]);
      InsertBySpec(le, s[n], SortBy(le, s[..n]));
      assert s == s[..n] + [s[n]];
    }
  }

  /** The elements satisfying `p`, in order. */
  function Filter<T>(p: T -> bool, s: seq<T>): (r: seq<T>)
    ensures |r| <= |s|
    ensures forall i :: 0 <= i < |r| ==> p(r[i])
  {
    if |s| == 0 then []
    else Filter(p, s[..|s| - 1]) + (if p(s[|s| - 1]) then [s[|s| - 1]] else [])
  }

  /** A filter whose predicate holds throughout keeps everything. */
  lemma {:induction false} FilterAll<T>(p: T -> bool, s: seq<T>)
    requires forall i :: 0 <= i < |s| ==> p(s[i])
    ensures Filter(p, s) == s
  {
    if |s| > 0 {
      var n := |s| - 1;
      FilterAll(p, s[..n]);
      assert s == s[..n] + [s[n]];
    }
  }

  /** A filter whose predicate fails throughout keeps nothing. */
  lemma {:induction false} FilterNone<T>(p: T -> bool, s: seq<T>)
    requires forall i :: 0 <= i < |s| ==> !p(s[i])
    ensures Filter(p, s) == []
  {
    if |s| > 0 {
      FilterNone(p, s[..|s| - 1]);
    }
  }

  /** A filter keeps every occurrence of the elements satisfying `p` and
      nothing else. */
  lemma {:induction false} FilterMultiset<T>(p: T -> bool, s: seq<T>, x: T)
    ensures multiset(Filter(p, s))[x] == if p(x) then multiset(s)[x] else 0
  {
    if |s| > 0 {
      var n := |s| - 1;
      FilterMultiset(p, s[..n], x);
      assert s == s[..n] + [s[n]];
    }
  }

  /** Which elements a filter keeps depends only on the multiset. */
  lemma FilterPermutation<T(!new)>(p: T -> bool, a: seq<T>, b: seq<T>)
    requires multiset(a) == multiset(b)
    ensures multiset(Filter(p, a)) == multiset(Filter(p, b))
  {
    forall x
      ensures multiset(Filter(p, a))[x] == multiset(Filter(p, b))[x]
    {
      FilterMultiset(p, a, x);
      FilterMultiset(p, b, x);
      assert multiset(a)[x] == multiset(b)[x];
    }
  }

  /** Appending an element no smaller than every other keeps a sequence
      sorted. */
  lemma SortedSnoc<T>(le: (T, T) -> bool, a: seq<T>, y: T)
    requires SortedBy(le, a) && forall j :: 0 <= j < |a| ==> le(a[j], y)
    ensures SortedBy(le, a + [y])
  {
    var b := a + [y];
    forall i, j | 0 <= i < j < |b|
      ensures le(b[i], b[j])
    {
      assert b[i] == a[i];
      if j < |a| {
        assert b[j] == a[j];
      }
    }
  }

  /** A filter keeps a sorted sequence sorted. */
  lemma {:induction false} FilterSorted<T>(le: (T, T) -> bool, p: T -> bool, s: seq<T>)
    requires SortedBy(le, s)
    ensures SortedBy(le, Filter(p, s))
  {
    if |s| > 0 {
      var n := |s| - 1;
      var head := Filter(p, s[..n]);
      assert SortedBy(le, s[..n]) by {
        forall i, j | 0 <= i < j < n
          ensures le(s[..n][i], s[..n][j])
        {
          assert s[..n][i] == s[i] && s[..n][j] == s[j];
        }
      }
      FilterSorted(le, p, s[..n]);
      if p(s[n]) {
        forall j | 0 <= j < |head|
          ensures le(head[j], s[n])
        {
          FilterMultiset(p, s[..n], head[j]);
          assert head[j] in multiset(head);
          var k :| 0 <= k < n && s[..n][k] == head[j];
          assert s[k] == head[j];
        }
        SortedSnoc(le, head, s[n]);
      }
    }
  }
}
