/** Column-wise operations on the rows of a DataFrame: applying a function to
    every row, keeping the rows a condition holds of (`dropna`, list
    comprehensions with `if`), and the order-preserving subsequence relation
    they stand in. */
module Seqs {

  function Map<T, U>(f: T -> U, xs: seq<T>): (ys: seq<U>)
    ensures |ys| == |xs|
    ensures forall i :: 0 <= i < |xs| ==> ys[i] == f(xs[i])
  {
    seq(|xs|, i requires 0 <= i < |xs| => f(xs[i]))
  }

  function Filter<T>(p: T -> bool, xs: seq<T>): (ys: seq<T>)
    ensures |ys| <= |xs|
    ensures forall y :: y in ys ==> y in xs && p(y)
    ensures forall x :: x in xs && p(x) ==> x in ys
  {
    if xs == [] then [] else (if p(xs[0]) then [xs[0]] else []) + Filter(p, xs[1..])
  }

  /** ys is xs with some elements left out, the rest in their original order. */
  ghost predicate IsSubsequence<T>(ys: seq<T>, xs: seq<T>)
    decreases |xs|
  {
    if ys == [] then true
    else if xs == [] then false
    else (ys[0] == xs[0] && IsSubsequence(ys[1..], xs[1..])) || IsSubsequence(ys, xs[1..])
  }

  lemma {:induction false} FilterIsSubsequence<T>(p: T -> bool, xs: seq<T>)
    ensures IsSubsequence(Filter(p, xs), xs)
    decreases |xs|
  {
    if xs != [] {
      FilterIsSubsequence(p, xs[1..]);
      var rest := Filter(p, xs[1..]);
      if p(xs[0]) {
        assert Filter(p, xs) == [xs[0]] + rest;
        assert ([xs[0]] + rest)[1..] == rest;
      } else {
        assert Filter(p, xs) == rest;
        if rest != [] {
          assert IsSubsequence(rest, xs[1..]);
        }
      }
    }
  }

  lemma {:induction false} MapKeepsSubsequence<T, U>(f: T -> U, ys: seq<T>, xs: seq<T>)
    requires IsSubsequence(ys, xs)
    ensures IsSubsequence(Map(f, ys), Map(f, xs))
    decreases |xs|
  {
    if ys != [] {
      assert Map(f, xs)[1..] == Map(f, xs[1..]);
      if ys[0] == xs[0] && IsSubsequence(ys[1..], xs[1..]) {
        MapKeepsSubsequence(f, ys[1..], xs[1..]);
        assert Map(f, ys)[1..] == Map(f, ys[1..]);
      } else {
        MapKeepsSubsequence(f, ys, xs[1..]);
      }
    }
  }

  lemma {:induction false} FilterExtensional<T>(p: T -> bool, q: T -> bool, xs: seq<T>)
    requires forall x :: x in xs ==> p(x) == q(x)
    ensures Filter(p, xs) == Filter(q, xs)
    decreases |xs|
  {
    if xs != [] {
      assert forall x :: x in xs[1..] ==> x in xs;
      FilterExtensional(p, q, xs[1..]);
    }
  }

  lemma FilterCons<T>(p: T -> bool, x: T, xs: seq<T>)
    ensures Filter(p, [x] + xs) == (if p(x) then [x] else []) + Filter(p, xs)
  {
    assert ([x] + xs)[1..] == xs;
  }

  lemma {:induction false} FilterOfFilter<T>(p: T -> bool, q: T -> bool, both: T -> bool, xs: seq<T>)
    requires forall x :: both(x) == (p(x) && q(x))
    ensures Filter(q, Filter(p, xs)) == Filter(both, xs)
    decreases |xs|
  {
    if xs != [] {
      FilterOfFilter(p, q, both, xs[1..]);
      var rest := Filter(p, xs[1..]);
      assert Filter(both, xs) == (if both(xs[0]) then [xs[0]] else []) + Filter(both, xs[1..]);
      if p(xs[0]) {
        assert Filter(p, xs) == [xs[0]] + rest;
        FilterCons(q, xs[0], rest);
      } else {
        assert Filter(p, xs) == rest;
      }
    }
  }

  lemma {:induction false} FilterOfMap<T, U>(p: U -> bool, f: T -> U, pf: T -> bool, xs: seq<T>)
    requires forall x :: pf(x) == p(f(x))
    ensures Filter(p, Map(f, xs)) == Map(f, Filter(pf, xs))
    decreases |xs|
  {
    if xs != [] {
      FilterOfMap(p, f, pf, xs[1..]);
      assert Map(f, xs) == [f(xs[0])] + Map(f, xs[1..]);
      assert ([f(xs[0])] + Map(f, xs[1..]))[1..] == Map(f, xs[1..]);
      var rest := Filter(pf, xs[1..]);
      if pf(xs[0]) {
        assert Map(f, [xs[0]] + rest) == [f(xs[0])] + Map(f, rest);
      }
    }
  }

  lemma MapOfMap<T, U, V>(f: T -> U, g: U -> V, gf: T -> V, xs: seq<T>)
    requires forall x :: gf(x) == g(f(x))
    ensures Map(g, Map(f, xs)) == Map(gf, xs)
  {
  }
}
