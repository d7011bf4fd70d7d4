/** Ordering relations on sequences. */
module Seqs {

  /** xs is obtained from ys by deleting elements, keeping the order of the rest. */
  predicate Subsequence<T(==)>(xs: seq<T>, ys: seq<T>)
    decreases |ys|
  {
    if ys == [] then xs == []
    else (xs != [] && xs[0] == ys[0] && Subsequence(xs[1..], ys[1..])) || Subsequence(xs, ys[1..])
  }

  /** What is true of every element of ys is true of every element of a subsequence. */
  lemma {:induction false} SubsequenceElements<T>(xs: seq<T>, ys: seq<T>, x: T)
    requires Subsequence(xs, ys) && x in xs
    ensures x in ys
    decreases |ys|
  {
    if xs[0] == ys[0] && Subsequence(xs[1..], ys[1..]) {
      if x != xs[0] {
        SubsequenceElements(xs[1..], ys[1..], x);
      }
    } else {
      SubsequenceElements(xs, ys[1..], x);
    }
  }
}
