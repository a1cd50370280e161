/** Sequence helpers shared by the repositories and the valuation engine:
    the LINQ `Where`, `FirstOrDefault` and summation, with their laws. */
module Seqs {
  import opened Wrappers

  /** `Where(p)`: the elements of `s` satisfying `p`, in their original order. */
  function Filter<T(!new)>(s: seq<T>, p: T -> bool): (r: seq<T>)
    ensures |r| <= |s|
    ensures forall x :: x in r <==> x in s && p(x)
  {
    if |s| == 0 then []
    else if p(s[0]) then [s[0]] + Filter(s[1..], p)
    else Filter(s[1..], p)
  }

  /** `FirstOrDefault(p)`: the first element of `s` satisfying `p`, if any. */
  function FindFirst<T(==,!new)>(s: seq<T>, p: T -> bool): (r: Option<T>)
    ensures r.None? <==> forall x :: x in s ==> !p(x)
    ensures r.Some? ==> r.value in s && p(r.value)
    ensures r.Some? ==> exists k :: 0 <= k < |s| && s[k] == r.value && forall j :: 0 <= j < k ==> !p(s[j])
  {
    if |s| == 0 then None
    else if p(s[0]) then Some(s[0])
    else
      var r := FindFirst(s[1..], p);
      if r.Some? then
        var k :| 0 <= k < |s| - 1 && s[1..][k] == r.value && forall j :: 0 <= j < k ==> !p(s[1..][j]);
        assert s[k + 1] == r.value;
        r
      else r
  }

  /** The sum of `f` over the elements of `s`. */
  function SumOf<T>(s: seq<T>, f: T -> real): real
  {
    if |s| == 0 then 0.0 else f(s[0]) + SumOf(s[1..], f)
  }

  /** No two positions of `s` carry the same key. */
  ghost predicate DistinctBy<T, K>(s: seq<T>, key: T -> K)
  {
    forall i, j :: 0 <= i < j < |s| ==> key(s[i]) != key(s[j])
  }

  lemma {:induction false} FilterAppend<T(!new)>(a: seq<T>, b: seq<T>, p: T -> bool)
    ensures Filter(a + b, p) == Filter(a, p) + Filter(b, p)
  {
    if |a| == 0 {
      assert a + b == b;
    } else {
      assert (a + b)[1..] == a[1..] + b;
      FilterAppend(a[1..], b, p);
    }
  }

  /** Filtering with two predicates that agree on every element gives the same sequence. */
  lemma {:induction false} FilterAgree<T(!new)>(s: seq<T>, p: T -> bool, q: T -> bool)
    requires forall x :: x in s ==> p(x) == q(x)
    ensures Filter(s, p) == Filter(s, q)
  {
    if |s| > 0 {
      assert s[0] in s;
      forall x | x in s[1..]
        ensures p(x) == q(x)
      {
        assert x in s;
      }
      FilterAgree(s[1..], p, q);
    }
  }

  /** Filtering twice is filtering once with the conjunction; here stated
      for a second predicate `q` that is implied wherever `p` holds. */
  lemma {:induction false} FilterNarrow<T(!new)>(s: seq<T>, p: T -> bool, q: T -> bool, pq: T -> bool)
    requires forall x :: x in s ==> pq(x) == (p(x) && q(x))
    ensures Filter(Filter(s, p), q) == Filter(s, pq)
  {
    if |s| > 0 {
      assert s[0] in s;
      forall x | x in s[1..]
        ensures pq(x) == (p(x) && q(x))
      {
        assert x in s;
      }
      FilterNarrow(s[1..], p, q, pq);
    }
  }

  lemma {:induction false} FilterDistinctBy<T(!new), K>(s: seq<T>, p: T -> bool, key: T -> K)
    requires DistinctBy(s, key)
    ensures DistinctBy(Filter(s, p), key)
  {
    if |s| > 0 {
      var tail := s[1..];
      assert DistinctBy(tail, key) by {
        forall i, j | 0 <= i < j < |tail|
          ensures key(tail[i]) != key(tail[j])
        {
          assert tail[i] == s[i + 1] && tail[j] == s[j + 1];
        }
      }
      FilterDistinctBy(tail, p, key);
      if p(s[0]) {
        var r := Filter(s, p);
        assert r == [s[0]] + Filter(tail, p);
        forall i, j | 0 <= i < j < |r|
          ensures key(r[i]) != key(r[j])
        {
          if i == 0 {
            assert r[j] in Filter(tail, p);
            assert r[j] in tail;
            var m :| 0 <= m < |tail| && tail[m] == r[j];
            assert s[m + 1] == r[j];
          } else {
            assert r[i] == Filter(tail, p)[i - 1] && r[j] == Filter(tail, p)[j - 1];
          }
        }
      }
    }
  }

  lemma {:induction false} SumOfAppend<T>(a: seq<T>, b: seq<T>, f: T -> real)
    ensures SumOf(a + b, f) == SumOf(a, f) + SumOf(b, f)
  {
    if |a| == 0 {
      assert a + b == b;
    } else {
      assert (a + b)[1..] == a[1..] + b;
      SumOfAppend(a[1..], b, f);
    }
  }

  /** A sum of non-negative terms is at least each of its terms. */
  lemma {:induction false} TermAtMostSum<T>(s: seq<T>, f: T -> real, i: int)
    requires 0 <= i < |s|
    requires forall x :: x in s ==> f(x) >= 0.0
    ensures f(s[i]) <= SumOf(s, f)
  {
    assert s[0] in s;
    forall x | x in s[1..]
      ensures f(x) >= 0.0
    {
      assert x in s;
    }
    if i == 0 {
      SumNonNegative(s[1..], f);
    } else {
      assert s[i] == s[1..][i - 1];
      TermAtMostSum(s[1..], f, i - 1);
    }
  }

  lemma {:induction false} SumNonNegative<T>(s: seq<T>, f: T -> real)
    requires forall x :: x in s ==> f(x) >= 0.0
    ensures SumOf(s, f) >= 0.0
  {
    if |s| > 0 {
      assert s[0] in s;
      forall x | x in s[1..]
        ensures f(x) >= 0.0
      {
        assert x in s;
      }
      SumNonNegative(s[1..], f);
    }
  }

  /** Scaling every term by `c` scales the sum by `c`. */
  lemma {:induction false} SumOfScaled<T>(s: seq<T>, f: T -> real, g: T -> real, c: real)
    requires forall x :: x in s ==> g(x) == f(x) * c
    ensures SumOf(s, g) == SumOf(s, f) * c
  {
    if |s| > 0 {
      assert s[0] in s;
      forall x | x in s[1..]
        ensures g(x) == f(x) * c
      {
        assert x in s;
      }
      SumOfScaled(s[1..], f, g, c);
    }
  }

  /** Termwise errors of at most `e` add up to an error of at most `|s| * e`. */
  lemma {:induction false} SumOfClose<T>(s: seq<T>, f: T -> real, g: T -> real, e: real)
    requires forall x :: x in s ==> f(x) - e <= g(x) <= f(x) + e
    ensures SumOf(s, f) - |s| as real * e <= SumOf(s, g) <= SumOf(s, f) + |s| as real * e
  {
    if |s| > 0 {
      assert s[0] in s;
      forall x | x in s[1..]
        ensures f(x) - e <= g(x) <= f(x) + e
      {
        assert x in s;
      }
      SumOfClose(s[1..], f, g, e);
    }
  }

  /** A subset never has more elements than its superset. */
  lemma {:induction false} SubsetCardinality<T>(a: set<T>, b: set<T>)
    requires a <= b
    ensures |a| <= |b|
    decreases |b|
  {
    if a != {} {
      var x :| x in a;
      SubsetCardinality(a - {x}, b - {x});
    }
  }

  /** Sums over two sequences agree when their terms agree position by position. */
  lemma {:induction false} SumOfPointwise<T, U>(a: seq<T>, f: T -> real, b: seq<U>, g: U -> real)
    requires |a| == |b|
    requires forall k :: 0 <= k < |a| ==> f(a[k]) == g(b[k])
    ensures SumOf(a, f) == SumOf(b, g)
  {
    if |a| > 0 {
      assert f(a[0]) == g(b[0]);
      forall k | 0 <= k < |a| - 1
        ensures f(a[1..][k]) == g(b[1..][k])
      {
        assert a[1..][k] == a[k + 1] && b[1..][k] == b[k + 1];
      }
      SumOfPointwise(a[1..], f, b[1..], g);
    }
  }
}
