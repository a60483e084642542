/** `accumulate`: the running folds of one input. The cursor carries the
    fold so far; `operator++` steps the cursor and folds in the element it
    lands on, which for the last element is the end position. */
module Accumulate {
  import opened RangeViews

  /** The left fold of `s` from `init`: the reference the running state is
      proved against. */
  function FoldLeft<T, S>(f: (S, T) -> S, init: S, s: seq<T>): S
  {
    if s == [] then init else f(FoldLeft(f, init, s[..|s| - 1]), s[|s| - 1])
  }

  /** The running state the begin cursor of `accumulate` holds. */
  function BeginAcc<T, S>(f: (S, T) -> S, init: S, s: seq<T>): S
  {
    if s == [] then init else f(init, s[0])
  }

  /** The running state after an advance from position `it`, where an
      element is there to be folded in. */
  function StepAcc<T, S>(f: (S, T) -> S, s: seq<T>, acc: S, it: nat): S
  {
    if it + 1 < |s| then f(acc, s[it + 1]) else acc
  }

  /** The running state after `k` advances from begin. */
  function Acc<T, S>(f: (S, T) -> S, init: S, s: seq<T>, k: nat): S
  {
    if k == 0 then BeginAcc(f, init, s) else StepAcc(f, s, Acc(f, init, s, k - 1), k - 1)
  }

  /** At every position the range visits, the running state is the fold of
      the input up to and including that position. */
  lemma {:induction false} AccIsFold<T, S>(f: (S, T) -> S, init: S, s: seq<T>, k: nat)
    requires k < |s|
    ensures Acc(f, init, s, k) == FoldLeft(f, init, s[..k + 1])
  {
    if k == 0 {
      assert s[..1][..0] == [];
    } else {
      AccIsFold(f, init, s, k - 1);
      assert s[..k + 1][..k] == s[..k];
    }
  }

  /** `plus`: the default fold. */
  function Plus(x: int, y: int): int
  {
    x + y
  }

  /** With `plus` from 0, 1 2 3 4 5 gives 1 3 6 10 15. */
  lemma {:induction false} RunningSums(s: seq<int>, k: nat)
    requires s == [1, 2, 3, 4, 5] && k < 5
    ensures Acc(Plus, 0, s, k) == [1, 3, 6, 10, 15][k]
  {
    if k > 0 {
      RunningSums(s, k - 1);
    }
  }

  /** The cursor of one `accumulate(...)` call. */
  class AccumulateIterator<T, S> {
    const src: seq<T>
    const fn: (S, T) -> S
    var it: nat
    var acc: S

    ghost predicate Valid()
      reads this
    {
      it <= |src|
    }

    /** `accumulate_iterator(it, init, fn)`. */
    constructor (src: seq<T>, it: nat, init: S, fn: (S, T) -> S)
      requires it <= |src|
      ensures Valid() && this.src == src && this.fn == fn && this.it == it && acc == init
    {
      this.src := src;
      this.fn := fn;
      this.it := it;
      acc := init;
    }

    /** `operator*`: the running state. */
    function Deref(): (r: S)
      reads this
      ensures r == acc
    {
      acc
    }

    /** `operator==`: the cursors match; the running states are ignored. */
    predicate Equals(other: AccumulateIterator<T, S>)
      reads this, other
      ensures Equals(other) <==> it == other.it
    {
      it == other.it
    }

    /** `operator++` as written: step, then fold in the element there. From
        the last element the step lands on the end position and the read
        is out of range; `readsEnd` reports it, and the state is then left
        as it was. */
    method Advance() returns (readsEnd: bool)
      requires Valid() && it < |src|
      modifies this
      ensures Valid() && it == old(it) + 1
      ensures readsEnd <==> it == |src|
      ensures acc == StepAcc(fn, src, old(acc), old(it))
    {
      it := it + 1;
      readsEnd := it == |src|;
      if !readsEnd {
        acc := fn(acc, src[it]);
      }
    }

    /** `operator++` corrected: fold in the next element only when there is
        one. */
    method AdvanceOrFinish()
      requires Valid() && it < |src|
      modifies this
      ensures Valid() && it == old(it) + 1
      ensures it < |src| ==> acc == fn(old(acc), src[it])
      ensures it == |src| ==> acc == old(acc)
    {
      if it + 1 < |src| {
        acc := fn(acc, src[it + 1]);
      }
      it := it + 1;
    }
  }

  /** `accumulate(first, last, init, fn)`: begin at the first element
      holding its fold (or `init` for an empty input), end at the last. */
  method Range<T, S>(src: seq<T>, init: S, fn: (S, T) -> S) returns (view: RangeView<AccumulateIterator<T, S>>)
    ensures fresh(view.first) && fresh(view.last)
    ensures view.first.Valid() && view.first.src == src && view.first.fn == fn
    ensures view.first.it == 0 && view.first.acc == BeginAcc(fn, init, src)
    ensures view.last.Valid() && view.last.it == |src| && view.last.acc == init
  {
    var first := new AccumulateIterator(src, 0, if |src| == 0 then init else fn(init, src[0]), fn);
    var last := new AccumulateIterator(src, |src|, init, fn);
    view := RangeView(first, last);
  }
}
