/** `tee<N>`: N copies of one range (or iterable) in a tuple, built by
    compile-time recursion on N. */
module Tee {
  import opened RangeViews

  /** `duplicator<N>::get`: N = 0 gives the empty tuple; otherwise the
      argument followed by `duplicator<N - 1>`'s tuple. */
  function Duplicate<T>(n: nat, x: T): (r: seq<T>)
    ensures |r| == n && forall i :: 0 <= i < n ==> r[i] == x
  {
    if n == 0 then [] else [x] + Duplicate(n - 1, x)
  }

  /** `tee<N>(first, last)`: N copies of the view over the range. */
  function TeeRange<C>(n: nat, first: C, last: C): (r: seq<RangeView<C>>)
    ensures |r| == n
    ensures forall i :: 0 <= i < n ==> r[i].Begin() == first && r[i].End() == last
  {
    Duplicate(n, RangeView(first, last))
  }

  /** Any two copies iterate equal sequences: they are the same view. */
  lemma CopiesAgree<C>(n: nat, first: C, last: C, i: nat, j: nat)
    requires i < n && j < n
    ensures TeeRange(n, first, last)[i] == TeeRange(n, first, last)[j]
  {
  }
}
