/**
 * The array folds the application writes with `filter` and
 * `reduce((sum, x) => sum + f(x), 0)`, and the facts about them the
 * statistics rely on: sums split over concatenation, and neither a sum nor
 * a filter cares about the order of the array.
 */
module Folds {

  /** `s.reduce((sum, x) => sum + f(x), 0)`. */
  function Sum<T>(s: seq<T>, f: T -> real): real
    decreases |s|
  {
    if s == [] then 0.0 else f(s[0]) + Sum(s[1..], f)
  }

  /** `s.filter(p)`: the elements satisfying `p`, in their original order. */
  function Filter<T>(s: seq<T>, p: T -> bool): (r: seq<T>)
    ensures |r| <= |s|
    ensures forall i :: 0 <= i < |r| ==> p(r[i])
    ensures multiset(r) <= multiset(s)
    decreases |s|
  {
    if s == [] then []
    else
      assert s == [s[0]] + s[1..];
      if p(s[0]) then [s[0]] + Filter(s[1..], p) else Filter(s[1..], p)
  }

  lemma {:induction false} SumAppend<T>(a: seq<T>, b: seq<T>, f: T -> real)
    ensures Sum(a + b, f) == Sum(a, f) + Sum(b, f)
    decreases |a|
  {
    if a == [] {
      assert a + b == b;
    } else {
      assert (a + b)[1..] == a[1..] + b;
      SumAppend(a[1..], b, f);
    }
  }

  lemma {:induction false} FilterAppend<T>(a: seq<T>, b: seq<T>, p: T -> bool)
    ensures Filter(a + b, p) == Filter(a, p) + Filter(b, p)
    decreases |a|
  {
    if a == [] {
      assert a + b == b;
    } else {
      assert (a + b)[1..] == a[1..] + b;
      FilterAppend(a[1..], b, p);
    }
  }

  /** Membership in a filter: kept exactly when in the input and satisfying `p`. */
  lemma {:induction false} FilterMembers<T>(s: seq<T>, p: T -> bool, x: T)
    ensures x in Filter(s, p) <==> x in s && p(x)
    decreases |s|
  {
    if s != [] {
      FilterMembers(s[1..], p, x);
      assert x in s <==> x == s[0] || x in s[1..];
    }
  }

  /** The filter keeps every occurrence of a kept value and none of a dropped one. */
  lemma {:induction false} FilterMultiset<T>(s: seq<T>, p: T -> bool, x: T)
    ensures multiset(Filter(s, p))[x] == if p(x) then multiset(s)[x] else 0
    decreases |s|
  {
    if s != [] {
      FilterMultiset(s[1..], p, x);
      assert s == [s[0]] + s[1..];
    }
  }

  /** Reordering the input reorders the filter's output and nothing more. */
  lemma FilterPermutation<T>(a: seq<T>, b: seq<T>, p: T -> bool)
    requires multiset(a) == multiset(b)
    ensures multiset(Filter(a, p)) == multiset(Filter(b, p))
    ensures |Filter(a, p)| == |Filter(b, p)|
  {
    forall x ensures multiset(Filter(a, p))[x] == multiset(Filter(b, p))[x] {
      FilterMultiset(a, p, x);
      FilterMultiset(b, p, x);
    }
    assert |multiset(Filter(a, p))| == |Filter(a, p)|;
  }

  /** Taking one element out of an array: what remains, as a multiset and as a sum. */
  lemma RemoveAt<T>(b: seq<T>, j: nat, f: T -> real)
    requires j < |b|
    ensures multiset(b[..j] + b[j + 1..]) == multiset(b) - multiset{b[j]}
    ensures Sum(b, f) == f(b[j]) + Sum(b[..j] + b[j + 1..], f)
  {
    RemoveAtMultiset(b, j);
    RemoveAtSum(b, j, f);
  }

  lemma RemoveAtMultiset<T>(b: seq<T>, j: nat)
    requires j < |b|
    ensures multiset(b[..j] + b[j + 1..]) == multiset(b) - multiset{b[j]}
  {
    assert b == b[..j] + [b[j]] + b[j + 1..];
  }

  lemma RemoveAtSum<T>(b: seq<T>, j: nat, f: T -> real)
    requires j < |b|
    ensures Sum(b, f) == f(b[j]) + Sum(b[..j] + b[j + 1..], f)
  {
    var pre, x, post := b[..j], b[j], b[j + 1..];
    assert b == pre + ([x] + post);
    SumAppend(pre, [x] + post, f);
    SumAppend(pre, post, f);
    assert ([x] + post)[1..] == post;
  }

  /** A sum does not depend on the order of the array. */
  lemma {:induction false} SumPermutation<T>(a: seq<T>, b: seq<T>, f: T -> real)
    requires multiset(a) == multiset(b)
    ensures Sum(a, f) == Sum(b, f)
    decreases |a|
  {
    if a == [] {
      assert |multiset(b)| == 0;
    } else {
      var x := a[0];
      assert a == [x] + a[1..];
      assert multiset(a[1..]) == multiset(a) - multiset{x};
      assert x in multiset(b);
      var j :| 0 <= j < |b| && b[j] == x;
      RemoveAt(b, j, f);
      SumPermutation(a[1..], b[..j] + b[j + 1..], f);
    }
  }

  /** A sum of non-negative terms is non-negative, and positive when one term is. */
  lemma {:induction false} SumNonNegative<T>(s: seq<T>, f: T -> real)
    requires forall i :: 0 <= i < |s| ==> f(s[i]) >= 0.0
    ensures Sum(s, f) >= 0.0
    ensures (exists i :: 0 <= i < |s| && f(s[i]) > 0.0) ==> Sum(s, f) > 0.0
    decreases |s|
  {
    if s != [] {
      SumNonNegative(s[1..], f);
      if exists i :: 0 <= i < |s| && f(s[i]) > 0.0 {
        var i :| 0 <= i < |s| && f(s[i]) > 0.0;
        if i > 0 {
          assert f(s[1..][i - 1]) > 0.0;
        }
      }
    }
  }

  /** A sum of terms that are all zero. */
  lemma {:induction false} SumZero<T>(s: seq<T>, f: T -> real)
    requires forall i :: 0 <= i < |s| ==> f(s[i]) == 0.0
    ensures Sum(s, f) == 0.0
    decreases |s|
  {
    if s != [] {
      SumZero(s[1..], f);
    }
  }

  /** Sums are linear: a term that is the difference of two others sums to the difference of their sums. */
  lemma {:induction false} SumDifference<T>(s: seq<T>, f: T -> real, g: T -> real, h: T -> real)
    requires forall i :: 0 <= i < |s| ==> f(s[i]) == g(s[i]) - h(s[i])
    ensures Sum(s, f) == Sum(s, g) - Sum(s, h)
    decreases |s|
  {
    if s != [] {
      SumDifference(s[1..], f, g, h);
    }
  }

  /** Filtering by a condition everything satisfies keeps everything. */
  lemma {:induction false} FilterAll<T>(s: seq<T>, p: T -> bool)
    requires forall i :: 0 <= i < |s| ==> p(s[i])
    ensures Filter(s, p) == s
    decreases |s|
  {
    if s != [] {
      FilterAll(s[1..], p);
    }
  }

  /**
   * Two conditions no element satisfies together select at most the whole
   * array between them, and exactly the whole array when every element
   * satisfies one of them.
   */
  lemma {:induction false} FilterDisjointCount<T>(s: seq<T>, p: T -> bool, q: T -> bool)
    requires forall i :: 0 <= i < |s| ==> !(p(s[i]) && q(s[i]))
    ensures |Filter(s, p)| + |Filter(s, q)| <= |s|
    ensures (forall i :: 0 <= i < |s| ==> p(s[i]) || q(s[i])) ==> |Filter(s, p)| + |Filter(s, q)| == |s|
    decreases |s|
  {
    if s != [] {
      FilterDisjointCount(s[1..], p, q);
    }
  }

  /** `Math.max(...s.map(f))` on a non-empty array. */
  function Max<T>(s: seq<T>, f: T -> real): (r: real)
    requires s != []
    ensures forall i :: 0 <= i < |s| ==> f(s[i]) <= r
    ensures exists i :: 0 <= i < |s| && f(s[i]) == r
    decreases |s|
  {
    if |s| == 1 then f(s[0])
    else
      var m := Max(s[1..], f);
      assert forall i :: 1 <= i < |s| ==> f(s[i]) == f(s[1..][i - 1]);
      if f(s[0]) >= m then f(s[0]) else m
  }

  /** `Math.min(...s.map(f))` on a non-empty array. */
  function Min<T>(s: seq<T>, f: T -> real): (r: real)
    requires s != []
    ensures forall i :: 0 <= i < |s| ==> r <= f(s[i])
    ensures exists i :: 0 <= i < |s| && f(s[i]) == r
    decreases |s|
  {
    if |s| == 1 then f(s[0])
    else
      var m := Min(s[1..], f);
      assert forall i :: 1 <= i < |s| ==> f(s[i]) == f(s[1..][i - 1]);
      if f(s[0]) <= m then f(s[0]) else m
  }

  /** When every element of `a` also occurs in `b`, the extremes of `a` lie within those of `b`. */
  lemma ExtremesWithin<T>(a: seq<T>, b: seq<T>, f: T -> real)
    requires a != [] && b != []
    requires forall x :: x in a ==> x in b
    ensures Max(a, f) <= Max(b, f) && Min(b, f) <= Min(a, f)
  {
    var ia :| 0 <= ia < |a| && f(a[ia]) == Max(a, f);
    assert a[ia] in b;
    var jb :| 0 <= jb < |b| && b[jb] == a[ia];
    var ka :| 0 <= ka < |a| && f(a[ka]) == Min(a, f);
    assert a[ka] in b;
    var kb :| 0 <= kb < |b| && b[kb] == a[ka];
  }

  /** The largest and smallest values do not depend on the order of the array. */
  lemma MaxMinPermutation<T>(a: seq<T>, b: seq<T>, f: T -> real)
    requires a != [] && multiset(a) == multiset(b)
    ensures b != []
    ensures Max(a, f) == Max(b, f) && Min(a, f) == Min(b, f)
  {
    assert a[0] in multiset(b);
    forall x | x in a ensures x in b {
      assert x in multiset(a);
    }
    forall x | x in b ensures x in a {
      assert x in multiset(b);
    }
    ExtremesWithin(a, b, f);
    ExtremesWithin(b, a, f);
  }

  /** The sum of `g(k)` for `lo <= k < hi`, accumulated month by month up to `hi`. */
  function RangeSum(lo: int, hi: int, g: int -> real): real
    decreases hi - lo
  {
    if hi <= lo then 0.0 else RangeSum(lo, hi - 1, g) + g(hi - 1)
  }

  /** A range sum grows by the next term. */
  lemma RangeSumSnoc(lo: int, hi: int, g: int -> real)
    requires lo <= hi
    ensures RangeSum(lo, hi + 1, g) == RangeSum(lo, hi, g) + g(hi)
  {
  }

  /** Range sums add pointwise. */
  lemma {:induction false} RangeSumAdd(lo: int, hi: int, g: int -> real, g1: int -> real, g2: int -> real)
    requires forall k :: lo <= k < hi ==> g(k) == g1(k) + g2(k)
    ensures RangeSum(lo, hi, g) == RangeSum(lo, hi, g1) + RangeSum(lo, hi, g2)
    decreases hi - lo
  {
    if lo < hi {
      RangeSumAdd(lo, hi - 1, g, g1, g2);
    }
  }

  /** A range sum of a term that is `c` at `j` and zero elsewhere. */
  lemma {:induction false} RangeSumSingle(lo: int, hi: int, g: int -> real, j: int, c: real)
    requires forall k :: lo <= k < hi ==> g(k) == (if k == j then c else 0.0)
    ensures RangeSum(lo, hi, g) == if lo <= j < hi then c else 0.0
    decreases hi - lo
  {
    if lo < hi {
      RangeSumSingle(lo, hi - 1, g, j, c);
    }
  }

  /** A set that is not empty has a member. */
  lemma NonEmptyHasMember(keys: set<int>)
    requires keys != {}
    ensures exists k :: k in keys
  {
    if forall k :: k !in keys {
      assert false;
    }
  }

  /** The sum of `g(k)` over a finite set of keys, visited in no particular order. */
  ghost function SumOver(keys: set<int>, g: int -> real): real
    decreases |keys|
  {
    if keys == {} then 0.0
    else
      NonEmptyHasMember(keys);
      var k :| k in keys;
      g(k) + SumOver(keys - {k}, g)
  }

  /** The set sum does not depend on which key is taken out first. */
  lemma {:induction false} SumOverRemove(keys: set<int>, g: int -> real, k: int)
    requires k in keys
    ensures SumOver(keys, g) == g(k) + SumOver(keys - {k}, g)
    decreases |keys|
  {
    var j :| j in keys && SumOver(keys, g) == g(j) + SumOver(keys - {j}, g);
    if j != k {
      SumOverRemove(keys - {j}, g, k);
      SumOverRemove(keys - {k}, g, j);
      assert keys - {j} - {k} == keys - {k} - {j};
    }
  }

  /**
   * Summed over a span of keys, a term that vanishes outside a set of
   * keys inside the span gives the set sum.
   */
  lemma {:induction false} RangeSumOverKeys(lo: int, hi: int, keys: set<int>, g: int -> real)
    requires forall k :: k in keys ==> lo <= k < hi
    requires forall k :: lo <= k < hi && k !in keys ==> g(k) == 0.0
    ensures RangeSum(lo, hi, g) == SumOver(keys, g)
    decreases hi - lo
  {
    if hi <= lo {
      assert forall k :: k !in keys;
      assert keys == {};
    } else if hi - 1 in keys {
      RangeSumOverKeys(lo, hi - 1, keys - {hi - 1}, g);
      SumOverRemove(keys, g, hi - 1);
    } else {
      RangeSumOverKeys(lo, hi - 1, keys, g);
    }
  }
}
