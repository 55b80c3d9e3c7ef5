// The standard library's stable sorts (`sort_by`, `sort_by_key`) as the
// symbol table writer uses them: a stable insertion sort under a total
// preorder, proved sorted, a permutation of its input and stable.
module Sorting {

  /** `le` is a total preorder: any two elements compare, and the order is
      transitive.  `sort_by` asks exactly this of its comparator. */
  ghost predicate TotalPreorder<T(!new)>(le: (T, T) -> bool)
  {
    && (forall a, b :: le(a, b) || le(b, a))
    && (forall a, b, c :: le(a, b) && le(b, c) ==> le(a, c))
  }

  ghost predicate SortedBy<T>(s: seq<T>, le: (T, T) -> bool)
  {
    forall i, j :: 0 <= i < j < |s| ==> le(s[i], s[j])
  }

  /** `x` placed before the first element it is not above. */
  function Insert<T>(x: T, ys: seq<T>, le: (T, T) -> bool): (r: seq<T>)
    ensures |r| == |ys| + 1
    ensures multiset(r) == multiset{x} + multiset(ys)
  {
    if ys == [] || le(x, ys[0]) then [x] + ys
    else
      assert ys == [ys[0]] + ys[1..];
      [ys[0]] + Insert(x, ys[1..], le)
  }

  /** The sorted arrangement of `xs`: each element inserted into the sorted
      rest, so that of two equivalent elements the earlier stays first. */
  function SortBy<T>(xs: seq<T>, le: (T, T) -> bool): (r: seq<T>)
    ensures |r| == |xs|
    ensures multiset(r) == multiset(xs)
  {
    if xs == [] then []
    else
      assert xs == [xs[0]] + xs[1..];
      Insert(xs[0], SortBy(xs[1..], le), le)
  }

  lemma {:induction false} InsertSorted<T(!new)>(x: T, ys: seq<T>, le: (T, T) -> bool)
    requires TotalPreorder(le) && SortedBy(ys, le)
    ensures SortedBy(Insert(x, ys, le), le)
  {
    if ys == [] || le(x, ys[0]) {
      var r := [x] + ys;
      forall i, j | 0 <= i < j < |r|
        ensures le(r[i], r[j])
      {
        if i == 0 && j > 1 {
          assert le(ys[0], ys[j - 1]);
        }
      }
    } else {
      InsertSorted(x, ys[1..], le);
      var tail := Insert(x, ys[1..], le);
      var r := [ys[0]] + tail;
      assert le(ys[0], x);
      forall j | 0 <= j < |tail|
        ensures le(ys[0], tail[j])
      {
        assert tail[j] in multiset(tail);
        if tail[j] != x {
          assert tail[j] in multiset(ys[1..]);
          var m :| 0 <= m < |ys[1..]| && ys[1..][m] == tail[j];
          assert le(ys[0], ys[m + 1]);
        }
      }
      forall i, j | 0 <= i < j < |r|
        ensures le(r[i], r[j])
      {
        if i == 0 {
          assert r[j] == tail[j - 1];
        } else {
          assert r[i] == tail[i - 1] && r[j] == tail[j - 1];
        }
      }
    }
  }

  /** The sort puts its elements in order. */
  lemma {:induction false} SortBySorted<T(!new)>(xs: seq<T>, le: (T, T) -> bool)
    requires TotalPreorder(le)
    ensures SortedBy(SortBy(xs, le), le)
  {
    if xs != [] {
      SortBySorted(xs[1..], le);
      InsertSorted(xs[0], SortBy(xs[1..], le), le);
    }
  }

  /** The elements equivalent to `x` under `le`, in their order in `s`. */
  function Equivalents<T>(s: seq<T>, x: T, le: (T, T) -> bool): (r: seq<T>)
    ensures |r| <= |s|
  {
    if s == [] then []
    else (if le(s[0], x) && le(x, s[0]) then [s[0]] else []) + Equivalents(s[1..], x, le)
  }

  lemma {:induction false} InsertStable<T(!new)>(x: T, ys: seq<T>, z: T, le: (T, T) -> bool)
    requires TotalPreorder(le) && SortedBy(ys, le)
    ensures Equivalents(Insert(x, ys, le), z, le) == Equivalents([x] + ys, z, le)
  {
    assert ([x] + ys)[1..] == ys;
    if ys == [] || le(x, ys[0]) {
    } else {
      var tail := Insert(x, ys[1..], le);
      InsertStable(x, ys[1..], z, le);
      assert ([ys[0]] + tail)[1..] == tail;
      assert ([x] + ys[1..])[1..] == ys[1..];
      // `x` lies strictly above `ys[0]`, so at most one of them is
      // equivalent to `z`.
      if le(ys[0], z) && le(z, ys[0]) {
        assert !(le(x, z) && le(z, x));
      }
    }
  }

  /** The sort is stable: the elements equivalent to any `z` come out in
      the order they went in. */
  lemma {:induction false} SortByStable<T(!new)>(xs: seq<T>, z: T, le: (T, T) -> bool)
    requires TotalPreorder(le)
    ensures Equivalents(SortBy(xs, le), z, le) == Equivalents(xs, z, le)
  {
    if xs != [] {
      SortByStable(xs[1..], z, le);
      SortBySorted(xs[1..], le);
      InsertStable(xs[0], SortBy(xs[1..], le), z, le);
      assert ([xs[0]] + SortBy(xs[1..], le))[1..] == SortBy(xs[1..], le);
      assert xs == [xs[0]] + xs[1..];
    }
  }
}
