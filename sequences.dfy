/** Order-preserving selection from a sequence. */
module Sequences {

  /** `xs` is `ys` with some elements left out, the rest kept in order. */
  predicate Subsequence<T(==)>(xs: seq<T>, ys: seq<T>)
    decreases |ys|
  {
    xs == []
    || (ys != [] && ((xs[0] == ys[0] && Subsequence(xs[1..], ys[1..])) || Subsequence(xs, ys[1..])))
  }

  /** Elements are pairwise different. */
  predicate Distinct<T(==)>(xs: seq<T>) {
    forall j, k :: 0 <= j < k < |xs| ==> xs[j] != xs[k]
  }

  /** A subsequence stays one when an element is appended to the longer sequence only. */
  lemma {:induction false} SubsequenceExtend<T>(xs: seq<T>, ys: seq<T>, a: T)
    requires Subsequence(xs, ys)
    ensures Subsequence(xs, ys + [a])
    decreases |ys|
  {
    if xs != [] {
      assert (ys + [a])[1..] == ys[1..] + [a];
      if xs[0] == ys[0] && Subsequence(xs[1..], ys[1..]) {
        SubsequenceExtend(xs[1..], ys[1..], a);
      } else {
        SubsequenceExtend(xs, ys[1..], a);
      }
    }
  }

  /** Appending the same element to both keeps a subsequence. */
  lemma {:induction false} SubsequenceAppend<T>(xs: seq<T>, ys: seq<T>, a: T)
    requires Subsequence(xs, ys)
    ensures Subsequence(xs + [a], ys + [a])
    decreases |ys|
  {
    if ys != [] {
      assert (ys + [a])[1..] == ys[1..] + [a];
    }
    if xs == [] {
      if ys == [] {
        assert Subsequence([a][1..], ([] + [a])[1..]);
      } else {
        SubsequenceAppend(xs, ys[1..], a);
        assert (xs + [a]) == [a];
      }
    } else {
      assert (xs + [a])[1..] == xs[1..] + [a];
      if xs[0] == ys[0] && Subsequence(xs[1..], ys[1..]) {
        SubsequenceAppend(xs[1..], ys[1..], a);
      } else {
        SubsequenceAppend(xs, ys[1..], a);
      }
    }
  }
}
