/** `ORDER BY` and `LIMIT` over lists, with the two laws the claim queries rest on: sorting has one
 *  answer, and an element beyond the first `k` of any part never reaches the first `k` of the whole.
 */
module Ordering {
  import opened Jobs

  /** A comparison that puts any two elements in some order. */
  ghost predicate TotalPreorder<T(!new)>(le: (T, T) -> bool) {
    && (forall x, y :: le(x, y) || le(y, x))
    && (forall x, y, z :: le(x, y) && le(y, z) ==> le(x, z))
  }

  /** No two different elements of `s` are tied. */
  ghost predicate NoTies<T(!new)>(s: seq<T>, le: (T, T) -> bool) {
    forall x, y :: x in s && y in s && le(x, y) && le(y, x) ==> x == y
  }

  ghost predicate Sorted<T>(s: seq<T>, le: (T, T) -> bool) {
    forall i, j :: 0 <= i < j < |s| ==> le(s[i], s[j])
  }

  function Limit<T>(s: seq<T>, k: nat): seq<T> {
    if k <= |s| then s[..k] else s
  }

  function Insert<T>(x: T, s: seq<T>, le: (T, T) -> bool): seq<T> {
    if s == [] then [x]
    else if le(x, s[0]) then [x] + s
    else [s[0]] + Insert(x, s[1..], le)
  }

  function OrderBy<T>(s: seq<T>, le: (T, T) -> bool): seq<T> {
    if s == [] then [] else Insert(s[0], OrderBy(s[1..], le), le)
  }

  function Merge<T>(a: seq<T>, b: seq<T>, le: (T, T) -> bool): seq<T>
    decreases |a| + |b|
  {
    if a == [] then b
    else if b == [] then a
    else if le(a[0], b[0]) then [a[0]] + Merge(a[1..], b, le)
    else [b[0]] + Merge(a, b[1..], le)
  }

  lemma HeadTail<T>(s: seq<T>)
    requires s != []
    ensures multiset(s) == multiset{s[0]} + multiset(s[1..])
  {
    assert s == [s[0]] + s[1..];
  }

  lemma SameElements<T>(a: seq<T>, b: seq<T>)
    requires multiset(a) == multiset(b)
    ensures |a| == |b|
    ensures forall x :: x in a <==> x in b
  {
    assert |multiset(a)| == |a| && |multiset(b)| == |b|;
    forall x ensures x in a <==> x in b {
      assert x in a <==> x in multiset(a);
      assert x in b <==> x in multiset(b);
    }
  }

  lemma SortedCons<T(!new)>(x: T, s: seq<T>, le: (T, T) -> bool)
    requires Sorted(s, le)
    requires forall y :: y in s ==> le(x, y)
    ensures Sorted([x] + s, le)
  {
  }

  lemma {:induction false} InsertSorts<T(!new)>(x: T, s: seq<T>, le: (T, T) -> bool)
    requires TotalPreorder(le)
    ensures multiset(Insert(x, s, le)) == multiset{x} + multiset(s)
    ensures Sorted(s, le) ==> Sorted(Insert(x, s, le), le)
  {
    if s == [] {
    } else if le(x, s[0]) {
      if Sorted(s, le) {
        assert forall y :: y in s ==> le(x, y);
        SortedCons(x, s, le);
      }
    } else {
      HeadTail(s);
      InsertSorts(x, s[1..], le);
      var rest := Insert(x, s[1..], le);
      if Sorted(s, le) {
        forall y | y in rest ensures le(s[0], y) {
          assert y in multiset(rest);
        }
        SortedCons(s[0], rest, le);
      }
    }
  }

  /** Sorting keeps every element and puts them in order. */
  lemma {:induction false} OrderBySorts<T(!new)>(s: seq<T>, le: (T, T) -> bool)
    requires TotalPreorder(le)
    ensures multiset(OrderBy(s, le)) == multiset(s)
    ensures Sorted(OrderBy(s, le), le)
    ensures |OrderBy(s, le)| == |s| && forall x :: x in OrderBy(s, le) <==> x in s
  {
    if s != [] {
      HeadTail(s);
      OrderBySorts(s[1..], le);
      InsertSorts(s[0], OrderBy(s[1..], le), le);
    }
    SameElements(OrderBy(s, le), s);
  }

  lemma {:induction false} MergeSorts<T(!new)>(a: seq<T>, b: seq<T>, le: (T, T) -> bool)
    requires TotalPreorder(le) && Sorted(a, le) && Sorted(b, le)
    ensures multiset(Merge(a, b, le)) == multiset(a) + multiset(b)
    ensures Sorted(Merge(a, b, le), le)
    decreases |a| + |b|
  {
    if a != [] && b != [] {
      if le(a[0], b[0]) {
        MergeHead(a, b, le);
      } else {
        assert le(b[0], a[0]);
        HeadTail(b);
        MergeSorts(a, b[1..], le);
        var rest := Merge(a, b[1..], le);
        forall y | y in rest ensures le(b[0], y) {
          assert y in multiset(rest);
          if y in a { assert le(a[0], y); }
        }
        SortedCons(b[0], rest, le);
      }
    }
  }

  lemma {:induction false} MergeHead<T(!new)>(a: seq<T>, b: seq<T>, le: (T, T) -> bool)
    requires TotalPreorder(le) && Sorted(a, le) && Sorted(b, le)
    requires a != [] && b != [] && le(a[0], b[0])
    ensures multiset(Merge(a, b, le)) == multiset(a) + multiset(b)
    ensures Sorted(Merge(a, b, le), le)
    decreases |a| + |b|, 0
  {
    HeadTail(a);
    MergeSorts(a[1..], b, le);
    var rest := Merge(a[1..], b, le);
    forall y | y in rest ensures le(a[0], y) {
      assert y in multiset(rest);
      if y in b { assert le(b[0], y); }
    }
    SortedCons(a[0], rest, le);
  }

  /** Two sorted lists of the same elements, none of them tied, are the same list. */
  lemma {:induction false} SortedUnique<T(!new)>(a: seq<T>, b: seq<T>, le: (T, T) -> bool)
    requires TotalPreorder(le)
    requires multiset(a) == multiset(b)
    requires Sorted(a, le) && Sorted(b, le) && NoTies(a, le)
    ensures a == b
  {
    SameElements(a, b);
    if a != [] {
      assert a[0] in b && b[0] in a;
      assert a[0] == b[0];
      HeadTail(a);
      HeadTail(b);
      assert multiset(a[1..]) == multiset(a) - multiset{a[0]};
      assert multiset(b[1..]) == multiset(b) - multiset{b[0]};
      SortedUnique(a[1..], b[1..], le);
    }
  }

  /** The order of a scan does not matter. */
  lemma OrderByPermutation<T(!new)>(a: seq<T>, b: seq<T>, le: (T, T) -> bool)
    requires TotalPreorder(le) && multiset(a) == multiset(b) && NoTies(a, le)
    ensures OrderBy(a, le) == OrderBy(b, le)
  {
    OrderBySorts(a, le);
    OrderBySorts(b, le);
    SortedUnique(OrderBy(a, le), OrderBy(b, le), le);
  }

  /** Sorting a sorted list changes nothing. */
  lemma OrderBySorted<T(!new)>(a: seq<T>, le: (T, T) -> bool)
    requires TotalPreorder(le) && Sorted(a, le) && NoTies(a, le)
    ensures OrderBy(a, le) == a
  {
    OrderBySorts(a, le);
    SortedUnique(a, OrderBy(a, le), le);
  }

  lemma OrderByConcat<T(!new)>(a: seq<T>, b: seq<T>, le: (T, T) -> bool)
    requires TotalPreorder(le) && NoTies(a + b, le)
    ensures OrderBy(a + b, le) == Merge(OrderBy(a, le), OrderBy(b, le), le)
  {
    OrderBySorts(a + b, le);
    OrderBySorts(a, le);
    OrderBySorts(b, le);
    MergeSorts(OrderBy(a, le), OrderBy(b, le), le);
    SortedUnique(OrderBy(a + b, le), Merge(OrderBy(a, le), OrderBy(b, le), le), le);
  }

  lemma LimitCons<T>(x: T, s: seq<T>, k: nat)
    requires k > 0
    ensures Limit([x] + s, k) == [x] + Limit(s, k - 1)
  {
  }

  /** Cutting the inputs of a merge at `k` elements or later does not change its first `k`. */
  lemma {:induction false} LimitMerge<T>(a: seq<T>, b: seq<T>, le: (T, T) -> bool, k: nat, m: nat, n: nat)
    requires k <= m && k <= n
    ensures Limit(Merge(Limit(a, m), Limit(b, n), le), k) == Limit(Merge(a, b, le), k)
    decreases |a| + |b|
  {
    if k > 0 && a != [] && b != [] {
      var la, lb := Limit(a, m), Limit(b, n);
      assert la[0] == a[0] && lb[0] == b[0];
      if le(a[0], b[0]) {
        LimitMerge(a[1..], b, le, k - 1, m - 1, n);
        assert la[1..] == Limit(a[1..], m - 1);
        LimitCons(a[0], Merge(a[1..], b, le), k);
        LimitCons(a[0], Merge(la[1..], lb, le), k);
      } else {
        LimitMerge(a, b[1..], le, k - 1, m, n - 1);
        assert lb[1..] == Limit(b[1..], n - 1);
        LimitCons(b[0], Merge(a, b[1..], le), k);
        LimitCons(b[0], Merge(la, lb[1..], le), k);
      }
    }
  }

  // ----- permutations

  lemma EachSplits<T, U>(f: T -> U, a: seq<T>, x: T, b: seq<T>)
    ensures multiset(Each(f, a + [x] + b)) == multiset{f(x)} + multiset(Each(f, a + b))
  {
    assert Each(f, a + [x] + b) == Each(f, a) + [f(x)] + Each(f, b);
    assert Each(f, a + b) == Each(f, a) + Each(f, b);
  }

  /** The rest of `b` around its copy of the first element of `a`. */
  lemma WithoutOne<T>(front: seq<T>, x: T, back: seq<T>)
    ensures multiset(front + back) == multiset(front + [x] + back) - multiset{x}
  {
  }

  lemma Split<T>(s: seq<T>, x: T) returns (front: seq<T>, back: seq<T>)
    requires x in multiset(s)
    ensures s == front + [x] + back
  {
    var j :| 0 <= j < |s| && s[j] == x;
    front, back := s[..j], s[j + 1..];
  }

  lemma Around<T>(a: seq<T>, b: seq<T>) returns (front: seq<T>, back: seq<T>)
    requires a != [] && multiset(a) == multiset(b)
    ensures b == front + [a[0]] + back
    ensures multiset(a[1..]) == multiset(front + back)
  {
    var x := a[0];
    front, back := Split(b, x) by {
      assert x in multiset(a);
    }
    WithoutOne(front, x, back);
    assert multiset(a[1..]) == multiset(a) - multiset{x} by {
      HeadTail(a);
    }
  }

  lemma {:induction false} EachPermutation<T, U>(f: T -> U, a: seq<T>, b: seq<T>)
    requires multiset(a) == multiset(b)
    ensures multiset(Each(f, a)) == multiset(Each(f, b))
  {
    if a == [] {
      assert |multiset(b)| == 0;
    } else {
      var front, back := Around(a, b);
      assert a == [] + [a[0]] + a[1..] && [] + a[1..] == a[1..];
      EachPermutation(f, a[1..], front + back);
      EachSplits(f, [], a[0], a[1..]);
      EachSplits(f, front, a[0], back);
    }
  }

  lemma DistinctPermutation<T>(a: seq<T>, b: seq<T>)
    requires multiset(a) == multiset(b) && NoDuplicates(a)
    ensures NoDuplicates(b)
  {
    SameElements(a, b);
    assert ToSet(a) == ToSet(b);
    DistinctIffFull(a);
    DistinctIffFull(b);
  }
}
