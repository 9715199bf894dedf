/** Sequence operations shared by the model: JavaScript's `Array.prototype.filter`
    and the order-preserving subsequence relation it establishes. */
module Seqs {

  /** `s.filter(p)`: the elements of `s` that satisfy `p`, in their original order. */
  function Filter<T(!new)>(s: seq<T>, p: T -> bool): (r: seq<T>)
    ensures |r| <= |s|
    ensures forall i :: 0 <= i < |r| ==> p(r[i])
    ensures forall x :: x in r <==> x in s && p(x)
  {
    if s == [] then [] else (if p(s[0]) then [s[0]] else []) + Filter(s[1..], p)
  }

  /** `s.filter(p).length`. */
  function Count<T(!new)>(s: seq<T>, p: T -> bool): nat {
    |Filter(s, p)|
  }

  /** `a` is `b` with some elements deleted, the rest kept in order. */
  predicate IsSubsequence<T(==)>(a: seq<T>, b: seq<T>)
    decreases |b|
  {
    if a == [] then true
    else if b == [] then false
    else (a[0] == b[0] && IsSubsequence(a[1..], b[1..])) || IsSubsequence(a, b[1..])
  }

  lemma {:induction false} FilterIsSubsequence<T(!new)>(s: seq<T>, p: T -> bool)
    ensures IsSubsequence(Filter(s, p), s)
    decreases |s|
  {
    if s != [] {
      FilterIsSubsequence(s[1..], p);
      if p(s[0]) {
        assert Filter(s, p) == [s[0]] + Filter(s[1..], p);
        assert Filter(s, p)[1..] == Filter(s[1..], p);
      } else {
        assert Filter(s, p) == Filter(s[1..], p);
      }
    }
  }

  /** Filtering with a predicate every element satisfies returns the sequence itself. */
  lemma {:induction false} FilterKeepsAll<T(!new)>(s: seq<T>, p: T -> bool)
    requires forall i :: 0 <= i < |s| ==> p(s[i])
    ensures Filter(s, p) == s
    decreases |s|
  {
    if s != [] {
      FilterKeepsAll(s[1..], p);
      assert [s[0]] + s[1..] == s;
    }
  }

  /** A predicate no element satisfies leaves nothing. */
  lemma {:induction false} FilterKeepsNone<T(!new)>(s: seq<T>, p: T -> bool)
    requires forall i :: 0 <= i < |s| ==> !p(s[i])
    ensures Filter(s, p) == []
    decreases |s|
  {
    if s != [] {
      FilterKeepsNone(s[1..], p);
    }
  }

  /** Filtering twice by the same predicate is filtering once. */
  lemma FilterIdempotent<T(!new)>(s: seq<T>, p: T -> bool)
    ensures Filter(Filter(s, p), p) == Filter(s, p)
  {
    FilterKeepsAll(Filter(s, p), p);
  }

  /** When no two positions both satisfy `p`, at most one element survives the filter. */
  lemma {:induction false} CountAtMostOne<T(!new)>(s: seq<T>, p: T -> bool)
    requires forall i, j :: 0 <= i < j < |s| && p(s[i]) ==> !p(s[j])
    ensures Count(s, p) <= 1
    decreases |s|
  {
    if s != [] {
      if p(s[0]) {
        forall k | 0 <= k < |s[1..]| ensures !p(s[1..][k]) {
          assert s[1..][k] == s[k + 1];
        }
        FilterKeepsNone(s[1..], p);
      } else {
        CountAtMostOne(s[1..], p);
      }
    }
  }

  /** At most one match, so "exactly one match" (a single-row lookup) is "some match". */
  lemma CountOneIffExists<T(!new)>(s: seq<T>, p: T -> bool)
    requires forall i, j :: 0 <= i < j < |s| && p(s[i]) ==> !p(s[j])
    ensures Count(s, p) == 1 <==> exists i :: 0 <= i < |s| && p(s[i])
  {
    CountAtMostOne(s, p);
    if Count(s, p) == 1 {
      var x := Filter(s, p)[0];
      assert x in Filter(s, p);
      var i :| 0 <= i < |s| && s[i] == x;
      assert p(s[i]);
    }
    if exists i :: 0 <= i < |s| && p(s[i]) {
      var i :| 0 <= i < |s| && p(s[i]);
      assert s[i] in Filter(s, p);
    }
  }

  /** Filtering distributes over concatenation. */
  lemma {:induction false} FilterAppend<T(!new)>(a: seq<T>, b: seq<T>, p: T -> bool)
    ensures Filter(a + b, p) == Filter(a, p) + Filter(b, p)
    decreases |a|
  {
    if a != [] {
      assert (a + b)[1..] == a[1..] + b;
      FilterAppend(a[1..], b, p);
    } else {
      assert a + b == b;
    }
  }

  /** Two positions satisfying `p` mean at least two matches, so a single-row lookup fails. */
  lemma {:induction false} CountAtLeastTwo<T(!new)>(s: seq<T>, p: T -> bool, i: int, j: int)
    requires 0 <= i < j < |s| && p(s[i]) && p(s[j])
    ensures Count(s, p) >= 2
    decreases |s|
  {
    if i == 0 {
      assert s[1..][j - 1] == s[j];
      assert s[j] in Filter(s[1..], p);
    } else {
      CountAtLeastTwo(s[1..], p, i - 1, j - 1);
    }
  }

  /** A filter keeps every copy of a kept element and no copy of a dropped one. */
  lemma {:induction false} FilterMultiset<T(!new)>(s: seq<T>, p: T -> bool)
    ensures forall x :: multiset(Filter(s, p))[x] == if p(x) then multiset(s)[x] else 0
    decreases |s|
  {
    if s != [] {
      FilterMultiset(s[1..], p);
      assert s == [s[0]] + s[1..];
    }
  }

  /** The positions of `s` whose element satisfies `p`. */
  function IndicesWhere<T>(s: seq<T>, p: T -> bool): set<int> {
    set i | 0 <= i < |s| && p(s[i])
  }

  lemma IndicesSnoc<T>(front: seq<T>, x: T, p: T -> bool)
    ensures IndicesWhere(front + [x], p) == IndicesWhere(front, p) + (if p(x) then {|front|} else {})
  {
    var t := front + [x];
    forall i ensures i in IndicesWhere(t, p) <==> i in IndicesWhere(front, p) || (p(x) && i == |front|) {
      if 0 <= i < |front| {
        assert t[i] == front[i];
      }
    }
  }

  /** The filter's length is the number of positions that satisfy `p`. */
  lemma {:induction false} CountIsIndexSetSize<T(!new)>(s: seq<T>, p: T -> bool)
    ensures Count(s, p) == |IndicesWhere(s, p)|
    decreases |s|
  {
    if s != [] {
      var n := |s| - 1;
      var front, x := s[..n], s[n];
      CountIsIndexSetSize(front, p);
      assert s == front + [x];
      FilterAppend(front, [x], p);
      IndicesSnoc(front, x, p);
      assert n !in IndicesWhere(front, p);
      assert Filter([x], p) == if p(x) then [x] else [];
    }
  }

  /** A non-empty filter has a witness in the sequence. */
  lemma FilterWitness<T(!new)>(s: seq<T>, p: T -> bool)
    requires Count(s, p) >= 1
    ensures exists x :: x in s && p(x)
  {
    assert Filter(s, p)[0] in Filter(s, p);
  }
}
