/** The two scans the service is built from: a first-match search that stops
    at the first hit (`next(...)`, or a `for` loop with `break`), and a
    filter that keeps the matching elements in order. */
module Seqs {
  import opened Wrappers

  /** `i` is where a scan from the front stops: the first element satisfying `p`. */
  ghost predicate IsFirst<T>(s: seq<T>, p: T -> bool, i: int) {
    0 <= i < |s| && p(s[i]) && forall j :: 0 <= j < i ==> !p(s[j])
  }

  /** `i` is the last element satisfying `p`. */
  ghost predicate IsLast<T>(s: seq<T>, p: T -> bool, i: int) {
    0 <= i < |s| && p(s[i]) && forall j :: i < j < |s| ==> !p(s[j])
  }

  ghost predicate NoneMatch<T>(s: seq<T>, p: T -> bool) {
    forall j :: 0 <= j < |s| ==> !p(s[j])
  }

  /** Index of the first element satisfying `p`. */
  function FirstWhere<T>(s: seq<T>, p: T -> bool): (r: Option<nat>)
    ensures r.Some? ==> IsFirst(s, p, r.value)
    ensures r.None? <==> NoneMatch(s, p)
    decreases |s|
  {
    if |s| == 0 then None
    else if p(s[0]) then Some(0)
    else
      match FirstWhere(s[1..], p)
      case None => None
      case Some(i) => Some(i + 1)
  }

  /** There is only one first match, so it is the one the scan returns. */
  lemma FirstWhereFinds<T>(s: seq<T>, p: T -> bool, i: int)
    requires IsFirst(s, p, i)
    ensures FirstWhere(s, p) == Some(i)
  {
  }

  /** Scanning one more element finds the same first match, or the new
      element when it is the first match. */
  lemma FirstWhereAppend<T>(s: seq<T>, x: T, p: T -> bool)
    ensures FirstWhere(s + [x], p)
         == if FirstWhere(s, p).Some? then FirstWhere(s, p) else if p(x) then Some(|s|) else None
  {
    var t := s + [x];
    match FirstWhere(s, p)
    case Some(i) =>
      assert IsFirst(t, p, i);
      FirstWhereFinds(t, p, i);
    case None =>
      if p(x) {
        assert IsFirst(t, p, |s|);
        FirstWhereFinds(t, p, |s|);
      } else {
        assert NoneMatch(t, p);
      }
  }

  /** Index of the last element satisfying `p`: where a scan that overwrites
      its result on every match ends up. */
  function LastWhere<T>(s: seq<T>, p: T -> bool): (r: Option<nat>)
    ensures r.Some? ==> IsLast(s, p, r.value)
    ensures r.None? <==> NoneMatch(s, p)
    decreases |s|
  {
    if |s| == 0 then None
    else if p(s[|s| - 1]) then Some(|s| - 1)
    else LastWhere(s[..|s| - 1], p)
  }

  /** There is only one last match, so it is the one the scan returns. */
  lemma LastWhereFinds<T>(s: seq<T>, p: T -> bool, i: int)
    requires IsLast(s, p, i)
    ensures LastWhere(s, p) == Some(i)
  {
  }

  /** The elements satisfying `p`, in their original order. */
  function Filter<T>(s: seq<T>, p: T -> bool): (r: seq<T>)
    ensures |r| <= |s|
    ensures forall i :: 0 <= i < |r| ==> p(r[i])
    decreases |s|
  {
    if |s| == 0 then []
    else
      var init := s[..|s| - 1];
      assert s == init + [s[|s| - 1]];
      Filter(init, p) + (if p(s[|s| - 1]) then [s[|s| - 1]] else [])
  }

  /** Filtering commutes with concatenation; with the one-element case this
      pins the filter down completely, so order is kept. */
  lemma {:induction false} FilterConcat<T>(a: seq<T>, b: seq<T>, p: T -> bool)
    ensures Filter(a + b, p) == Filter(a, p) + Filter(b, p)
    decreases |b|
  {
    if |b| == 0 {
      assert a + b == a;
    } else {
      var init := b[..|b| - 1];
      assert (a + b)[..|a + b| - 1] == a + init;
      FilterConcat(a, init, p);
    }
  }

  /** The filter keeps exactly the elements satisfying `p`: each kept element
      comes from `s`, and each element of `s` satisfying `p` is kept. */
  lemma {:induction false} FilterMembers<T>(s: seq<T>, p: T -> bool)
    ensures forall i :: 0 <= i < |Filter(s, p)| ==> Filter(s, p)[i] in s
    ensures forall i :: 0 <= i < |s| && p(s[i]) ==> s[i] in Filter(s, p)
    decreases |s|
  {
    if |s| > 0 {
      var init := s[..|s| - 1];
      FilterMembers(init, p);
      assert s == init + [s[|s| - 1]];
      forall i | 0 <= i < |s| - 1 && p(s[i])
        ensures s[i] in Filter(s, p)
      {
        assert init[i] == s[i];
      }
    }
  }

  /** A property every element of `s` has, every kept element has. */
  lemma {:induction false} FilterKeeps<T>(s: seq<T>, p: T -> bool, q: T -> bool)
    requires forall i :: 0 <= i < |s| ==> q(s[i])
    ensures forall i :: 0 <= i < |Filter(s, p)| ==> q(Filter(s, p)[i])
    decreases |s|
  {
    if |s| > 0 {
      FilterKeeps(s[..|s| - 1], p, q);
    }
  }

  /** Scanning one more element appends it to the filter when it matches. */
  lemma FilterStep<T>(s: seq<T>, i: nat, p: T -> bool)
    requires i < |s|
    ensures Filter(s[..i + 1], p) == Filter(s[..i], p) + (if p(s[i]) then [s[i]] else [])
  {
    assert s[..i + 1][..i] == s[..i];
  }

  /** A relation that holds between every earlier and later element of `s`
      holds between every earlier and later element of its filter. */
  lemma {:induction false} FilterPairs<T>(s: seq<T>, p: T -> bool, rel: (T, T) -> bool)
    requires forall i, j :: 0 <= i < j < |s| ==> rel(s[i], s[j])
    ensures forall i, j :: 0 <= i < j < |Filter(s, p)| ==> rel(Filter(s, p)[i], Filter(s, p)[j])
    decreases |s|
  {
    if |s| > 0 {
      var init := s[..|s| - 1];
      var x := s[|s| - 1];
      FilterPairs(init, p, rel);
      FilterMembers(init, p);
      var f := Filter(init, p);
      forall i | 0 <= i < |f|
        ensures rel(f[i], x)
      {
        var a :| 0 <= a < |init| && init[a] == f[i];
        assert s[a] == f[i];
      }
    }
  }
}
