/** `starmap`: a function applied to each argument tuple of one input. An
    argument tuple is one value of type `A`. */
module Starmap {
  import opened RangeViews

  /** The cursor of one `starmap(fn, ...)` call. */
  class StarmapIterator<A, R> {
    const fn: A -> R
    const src: seq<A>
    var it: nat

    /** `starmap_iterator(fn, it)`. */
    constructor (fn: A -> R, src: seq<A>, it: nat)
      ensures this.fn == fn && this.src == src && this.it == it
    {
      this.fn := fn;
      this.src := src;
      this.it := it;
    }

    /** `operator*`: the function applied to the current arguments. */
    function Deref(): (r: R)
      reads this
      requires it < |src|
      ensures r == fn(src[it])
    {
      fn(src[it])
    }

    /** `operator++`: the underlying cursor moves one step. */
    method Advance()
      modifies this
      ensures it == old(it) + 1
    {
      it := it + 1;
    }

    /** `operator==`: the underlying cursors match. */
    predicate Equals(other: StarmapIterator<A, R>)
      reads this, other
      ensures Equals(other) <==> it == other.it
    {
      it == other.it
    }
  }

  /** `starmap(fn, first, last)`: begin at the first tuple, end at the last. */
  method Range<A, R>(fn: A -> R, src: seq<A>) returns (view: RangeView<StarmapIterator<A, R>>)
    ensures fresh(view.first) && fresh(view.last) && view.first != view.last
    ensures view.first.fn == fn && view.first.src == src && view.first.it == 0
    ensures view.last.fn == fn && view.last.src == src && view.last.it == |src|
  {
    var first := new StarmapIterator(fn, src, 0);
    var last := new StarmapIterator(fn, src, |src|);
    view := RangeView(first, last);
  }

  /** A range-for loop over `starmap(fn, src)`: one result per tuple, each
      the function of that tuple, in order. */
  method Collect<A, R>(fn: A -> R, src: seq<A>) returns (out: seq<R>)
    ensures |out| == |src| && forall i :: 0 <= i < |src| ==> out[i] == fn(src[i])
  {
    var view := Range(fn, src);
    var it := view.first;
    out := [];
    while !it.Equals(view.last)
      invariant it.it == |out| <= |src| && it.fn == fn && it.src == src && view.last.it == |src|
      invariant forall i :: 0 <= i < |out| ==> out[i] == fn(src[i])
      decreases |src| - it.it
    {
      out := out + [it.Deref()];
      it.Advance();
    }
  }

  /** x to the power n, one factor at a time. */
  function Power(x: int, n: nat): int
  {
    if n == 0 then 1 else x * Power(x, n - 1)
  }

  /** Power by halving the exponent, as the function handed to `starmap` in
      the example does. */
  function HalvingPow(args: (int, nat)): int
    decreases args.1
  {
    if args.1 == 0 then 1
    else
      var h := HalvingPow((args.0, args.1 / 2));
      h * h * (if args.1 % 2 != 0 then args.0 else 1)
  }

  lemma {:induction false} PowerAdd(x: int, a: nat, b: nat)
    ensures Power(x, a + b) == Power(x, a) * Power(x, b)
  {
    if a > 0 {
      PowerAdd(x, a - 1, b);
      assert Power(x, a + b) == x * Power(x, a - 1 + b);
    }
  }

  /** Halving the exponent computes the power. */
  lemma {:induction false} HalvingPowIsPower(x: int, n: nat)
    ensures HalvingPow((x, n)) == Power(x, n)
    decreases n
  {
    if n > 0 {
      HalvingPowIsPower(x, n / 2);
      PowerAdd(x, n / 2, n / 2);
      if n % 2 != 0 {
        PowerAdd(x, n / 2 + n / 2, 1);
        assert Power(x, 1) == x;
        assert n == n / 2 + n / 2 + 1;
      } else {
        assert n == n / 2 + n / 2;
      }
    }
  }

  /** (2, 5), (3, 2), (10, 3) give 32 9 1000. */
  lemma PowExample()
    ensures HalvingPow((2, 5)) == 32 && HalvingPow((3, 2)) == 9 && HalvingPow((10, 3)) == 1000
  {
    HalvingPowIsPower(2, 5);
    HalvingPowIsPower(3, 2);
    HalvingPowIsPower(10, 3);
  }
}
