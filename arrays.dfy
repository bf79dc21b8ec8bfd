/** `Array.prototype.filter` and a numeric `reduce` sum, as the components use them. */
module Arrays {

  /** `s.filter(p)`: the elements `p` accepts, in their original order. */
  function Filter<T(!new)>(s: seq<T>, p: T -> bool): (r: seq<T>)
    ensures |r| <= |s|
    ensures forall x :: x in r <==> x in s && p(x)
  {
    if s == [] then []
    else
      var pre, last := s[..|s| - 1], s[|s| - 1];
      assert s == pre + [last];
      Filter(pre, p) + (if p(last) then [last] else [])
  }

  /** Filtering distributes over concatenation: the order of the input is kept. */
  lemma {:induction false} FilterAppend<T(!new)>(a: seq<T>, b: seq<T>, p: T -> bool)
    ensures Filter(a + b, p) == Filter(a, p) + Filter(b, p)
    decreases |b|
  {
    if b == [] {
      assert a + b == a;
    } else {
      var pre := b[..|b| - 1];
      assert (a + b)[..|a + b| - 1] == a + pre;
      FilterAppend(a, pre, p);
    }
  }

  /** Two predicates that agree on the elements of `s` filter it alike. */
  lemma {:induction false} FilterCongruent<T(!new)>(s: seq<T>, p: T -> bool, q: T -> bool)
    requires forall i :: 0 <= i < |s| ==> p(s[i]) == q(s[i])
    ensures Filter(s, p) == Filter(s, q)
  {
    if s != [] {
      FilterCongruent(s[..|s| - 1], p, q);
    }
  }

  /** Filtering by `p` and then by `q` is filtering once by a predicate `both` that is their conjunction. */
  lemma {:induction false} FilterFilter<T(!new)>(s: seq<T>, p: T -> bool, q: T -> bool, both: T -> bool)
    requires forall x :: both(x) == (p(x) && q(x))
    ensures Filter(Filter(s, p), q) == Filter(s, both)
  {
    if s != [] {
      var pre, last := s[..|s| - 1], s[|s| - 1];
      var kept := Filter(pre, p);
      FilterFilter(pre, p, q, both);
      assert Filter(s, both) == Filter(pre, both) + (if both(last) then [last] else []);
      if p(last) {
        assert Filter(s, p) == kept + [last];
        FilterAppend(kept, [last], q);
        assert [last][..0] == [];
        assert Filter([last], q) == if q(last) then [last] else [];
      } else {
        assert Filter(s, p) == kept;
      }
    }
  }

  /** `xs.reduce((sum, x) => sum + x, 0)` over numbers. */
  function Sum(xs: seq<real>): real
  {
    if xs == [] then 0.0 else Sum(xs[..|xs| - 1]) + xs[|xs| - 1]
  }

  /** A sum of non-negative numbers is non-negative, and it is zero when every number is. */
  lemma {:induction false} SumNonNegative(xs: seq<real>)
    requires forall i :: 0 <= i < |xs| ==> xs[i] >= 0.0
    ensures Sum(xs) >= 0.0
    ensures (forall i :: 0 <= i < |xs| ==> xs[i] == 0.0) ==> Sum(xs) == 0.0
  {
    if xs != [] {
      SumNonNegative(xs[..|xs| - 1]);
    }
  }
}
