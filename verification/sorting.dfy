/** Python's `list.sort(key=...)`: a stable sort. It is modelled as an
    insertion sort that places each element after every element that is not
    greater than it, and is characterised by what any stable sort guarantees:
    the result is ordered, is a permutation of the input, and keeps the
    input order among elements that compare equal. */
module Sorting {

  /** `le` orders every pair and is transitive: what sorting by a key needs. */
  ghost predicate TotalPreorder<T(!new)>(le: (T, T) -> bool) {
    && (forall a, b :: le(a, b) || le(b, a))
    && (forall a, b, c :: le(a, b) && le(b, c) ==> le(a, c))
  }

  predicate SortedBy<T>(s: seq<T>, le: (T, T) -> bool) {
    forall i, j :: 0 <= i < j < |s| ==> le(s[i], s[j])
  }

  /** Elements that compare equal keep the order given by `before`. */
  ghost predicate TiesOrdered<T>(s: seq<T>, le: (T, T) -> bool, before: (T, T) -> bool) {
    forall i, j :: 0 <= i < j < |s| && le(s[i], s[j]) && le(s[j], s[i]) ==> before(s[i], s[j])
  }

  /** No two elements share the value of `f`. */
  ghost predicate DistinctBy<T, U>(s: seq<T>, f: T -> U) {
    forall i, j :: 0 <= i < j < |s| ==> f(s[i]) != f(s[j])
  }

  /** Puts `x` after the leading elements that are not greater than it. */
  function Insert<T>(x: T, s: seq<T>, le: (T, T) -> bool): (r: seq<T>)
    ensures |r| == |s| + 1
    ensures multiset(r) == multiset(s) + multiset{x}
    decreases |s|
  {
    if |s| == 0 then [x]
    else if le(s[0], x) then
      assert s == [s[0]] + s[1..];
      [s[0]] + Insert(x, s[1..], le)
    else [x] + s
  }

  /** Inserts the elements one after another, first to last. */
  function Sort<T>(s: seq<T>, le: (T, T) -> bool): (r: seq<T>)
    ensures |r| == |s|
    ensures multiset(r) == multiset(s)
    decreases |s|
  {
    if |s| == 0 then []
    else
      assert s == s[..|s| - 1] + [s[|s| - 1]];
      Insert(s[|s| - 1], Sort(s[..|s| - 1], le), le)
  }

  lemma {:induction false} InsertSorted<T(!new)>(x: T, s: seq<T>, le: (T, T) -> bool)
    requires TotalPreorder(le) && SortedBy(s, le)
    ensures SortedBy(Insert(x, s, le), le)
    decreases |s|
  {
    var r := Insert(x, s, le);
    if |s| > 0 {
      if le(s[0], x) {
        InsertSorted(x, s[1..], le);
        var tail := Insert(x, s[1..], le);
        forall k | 0 <= k < |tail|
          ensures le(s[0], tail[k])
        {
          assert tail[k] in multiset(s[1..]) + multiset{x};
          if tail[k] != x {
            assert tail[k] in s[1..];
          }
        }
      } else {
        assert le(x, s[0]);
      }
    }
  }

  /** The sort's result is ordered by `le`. */
  lemma {:induction false} SortSorted<T(!new)>(s: seq<T>, le: (T, T) -> bool)
    requires TotalPreorder(le)
    ensures SortedBy(Sort(s, le), le)
    decreases |s|
  {
    if |s| > 0 {
      SortSorted(s[..|s| - 1], le);
      InsertSorted(s[|s| - 1], Sort(s[..|s| - 1], le), le);
    }
  }

  lemma {:induction false} InsertKeepsTies<T(!new)>(x: T, s: seq<T>, le: (T, T) -> bool, before: (T, T) -> bool)
    requires TotalPreorder(le) && SortedBy(s, le) && TiesOrdered(s, le, before)
    requires forall e :: e in s && le(e, x) && le(x, e) ==> before(e, x)
    ensures TiesOrdered(Insert(x, s, le), le, before)
    decreases |s|
  {
    if |s| > 0 {
      if le(s[0], x) {
        assert TiesOrdered(s[1..], le, before);
        InsertKeepsTies(x, s[1..], le, before);
        var tail := Insert(x, s[1..], le);
        forall k | 0 <= k < |tail| && le(s[0], tail[k]) && le(tail[k], s[0])
          ensures before(s[0], tail[k])
        {
          assert tail[k] in multiset(s[1..]) + multiset{x};
          if tail[k] != x {
            var j :| 0 <= j < |s[1..]| && s[1..][j] == tail[k];
            assert s[j + 1] == tail[k];
          }
        }
      } else {
        // every element of s is strictly above x, so none ties with it
        forall k | 0 <= k < |s|
          ensures !(le(s[k], x) && le(x, s[k]))
        {
          if k > 0 {
            assert le(s[0], s[k]);
          }
        }
      }
    }
  }

  /** Stability: elements that compare equal leave the sort in the order they entered it. */
  lemma {:induction false} SortKeepsTies<T(!new)>(s: seq<T>, le: (T, T) -> bool, before: (T, T) -> bool)
    requires TotalPreorder(le) && TiesOrdered(s, le, before)
    ensures TiesOrdered(Sort(s, le), le, before)
    decreases |s|
  {
    if |s| > 0 {
      var init := s[..|s| - 1];
      var x := s[|s| - 1];
      assert TiesOrdered(init, le, before);
      SortKeepsTies(init, le, before);
      SortSorted(init, le);
      var sorted := Sort(init, le);
      forall e | e in sorted && le(e, x) && le(x, e)
        ensures before(e, x)
      {
        assert e in multiset(init);
        var j :| 0 <= j < |init| && init[j] == e;
        assert s[j] == e;
      }
      InsertKeepsTies(x, sorted, le, before);
    }
  }

  lemma {:induction false} InsertKeepsDistinct<T, U>(x: T, s: seq<T>, le: (T, T) -> bool, f: T -> U)
    requires DistinctBy(s, f)
    requires forall e :: e in s ==> f(e) != f(x)
    ensures DistinctBy(Insert(x, s, le), f)
    decreases |s|
  {
    if |s| > 0 && le(s[0], x) {
      assert DistinctBy(s[1..], f);
      InsertKeepsDistinct(x, s[1..], le, f);
      var tail := Insert(x, s[1..], le);
      forall k | 0 <= k < |tail|
        ensures f(s[0]) != f(tail[k])
      {
        assert tail[k] in multiset(s[1..]) + multiset{x};
        if tail[k] != x {
          var j :| 0 <= j < |s[1..]| && s[1..][j] == tail[k];
          assert s[j + 1] == tail[k];
        }
      }
    }
  }

  /** A key that is unique among the input stays unique among the output. */
  lemma {:induction false} SortKeepsDistinct<T, U>(s: seq<T>, le: (T, T) -> bool, f: T -> U)
    requires DistinctBy(s, f)
    ensures DistinctBy(Sort(s, le), f)
    decreases |s|
  {
    if |s| > 0 {
      var init := s[..|s| - 1];
      var x := s[|s| - 1];
      assert DistinctBy(init, f);
      SortKeepsDistinct(init, le, f);
      var sorted := Sort(init, le);
      forall e | e in sorted
        ensures f(e) != f(x)
      {
        assert e in multiset(init);
        var j :| 0 <= j < |init| && init[j] == e;
        assert s[j] == e;
      }
      InsertKeepsDistinct(x, sorted, le, f);
    }
  }

  /** Python's `<=` on integers, the model index's key order. */
  function IntLe(a: int, b: int): bool {
    a <= b
  }

  /** Python's `<=` on `str`: lexicographic by code point, a proper prefix first. */
  predicate StrLe(a: string, b: string)
    decreases |a|
  {
    |a| == 0 || (|b| > 0 && (a[0] < b[0] || (a[0] == b[0] && StrLe(a[1..], b[1..]))))
  }

  lemma {:induction false} StrLeTotal(a: string, b: string)
    ensures StrLe(a, b) || StrLe(b, a)
    decreases |a|
  {
    if |a| > 0 && |b| > 0 && a[0] == b[0] {
      StrLeTotal(a[1..], b[1..]);
    }
  }

  lemma {:induction false} StrLeTrans(a: string, b: string, c: string)
    requires StrLe(a, b) && StrLe(b, c)
    ensures StrLe(a, c)
    decreases |a|
  {
    if |a| > 0 && a[0] == b[0] && b[0] == c[0] {
      StrLeTrans(a[1..], b[1..], c[1..]);
    }
  }

  lemma StrLeIsTotalPreorder()
    ensures TotalPreorder(StrLe)
  {
    forall a, b
      ensures StrLe(a, b) || StrLe(b, a)
    {
      StrLeTotal(a, b);
    }
    forall a, b, c | StrLe(a, b) && StrLe(b, c)
      ensures StrLe(a, c)
    {
      StrLeTrans(a, b, c);
    }
  }

  lemma IntLeIsTotalPreorder()
    ensures TotalPreorder(IntLe)
  {
  }
}
