/** Sequence helpers shared by the model: JavaScript's `Array.prototype.filter` and the in-order subsequence relation. */
module Seqs {

  /** `xs.filter(f)` */
  function Filter<T(==)>(f: T -> bool, xs: seq<T>): (r: seq<T>)
    ensures |r| <= |xs|
    ensures forall k :: 0 <= k < |r| ==> f(r[k]) && r[k] in xs
    ensures forall k :: 0 <= k < |xs| && f(xs[k]) ==> xs[k] in r
    decreases |xs|
  {
    if xs == [] then []
    else if f(xs[0]) then [xs[0]] + Filter(f, xs[1..])
    else Filter(f, xs[1..])
  }

  /** `xs` can be obtained from `ys` by deleting elements, keeping the order of the rest. */
  predicate Subsequence<T(==)>(xs: seq<T>, ys: seq<T>)
    decreases |ys|
  {
    xs == [] || (ys != [] && ((xs[0] == ys[0] && Subsequence(xs[1..], ys[1..])) || Subsequence(xs, ys[1..])))
  }

  lemma {:induction false} FilterIsSubsequence<T>(f: T -> bool, xs: seq<T>)
    ensures Subsequence(Filter(f, xs), xs)
    decreases |xs|
  {
    if xs != [] {
      FilterIsSubsequence(f, xs[1..]);
      if f(xs[0]) {
        assert Filter(f, xs)[1..] == Filter(f, xs[1..]);
      }
    }
  }

  /** Filtering with a test every element passes changes nothing. */
  lemma {:induction false} FilterAll<T>(f: T -> bool, xs: seq<T>)
    requires forall k :: 0 <= k < |xs| ==> f(xs[k])
    ensures Filter(f, xs) == xs
    decreases |xs|
  {
    if xs != [] {
      FilterAll(f, xs[1..]);
    }
  }

  function Min(a: int, b: int): int {
    if a <= b then a else b
  }
}
