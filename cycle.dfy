/** `cycle`: the input's elements over and over. The cursor wraps to the
    first element on reaching the last, and no cursor ever equals another,
    so the range never ends. */
module Cycle {
  import opened RangeViews

  /** `operator++` on an input of length `len`: step, and go back to the
      first element if the step lands on the last. */
  function Wrap(len: nat, it: nat): (r: nat)
    ensures it < len ==> r < len && r == (it + 1) % len
  {
    if it + 1 == len then 0 else it + 1
  }

  /** The cursor after `k` advances from the first element. */
  function Pos(len: nat, k: nat): nat
  {
    if k == 0 then 0 else Wrap(len, Pos(len, k - 1))
  }

  lemma {:induction false} PosBelow(len: nat, r: nat)
    requires r < len
    ensures Pos(len, r) == r
  {
    if r > 0 {
      PosBelow(len, r - 1);
    }
  }

  /** Advancing len more times comes back to the same position. */
  lemma {:induction false} PosPeriodic(len: nat, k: nat)
    requires len > 0
    ensures Pos(len, k + len) == Pos(len, k)
  {
    if k == 0 {
      PosBelow(len, len - 1);
    } else {
      PosPeriodic(len, k - 1);
      assert k + len == (k - 1 + len) + 1;
    }
  }

  /** Over a non-empty input the cursor is at position r after q full
      rounds and r more advances, so it always reads an element; 1 2 3
      gives 1 2 3 1 2 3 1. */
  lemma {:induction false} PosIsMod(len: nat, q: nat, r: nat)
    requires r < len
    ensures Pos(len, q * len + r) == r
  {
    if q == 0 {
      PosBelow(len, r);
    } else {
      PosIsMod(len, q - 1, r);
      PosPeriodic(len, (q - 1) * len + r);
      assert q * len + r == (q - 1) * len + r + len;
    }
  }

  /** The same in the usual form: position k mod len after k advances. */
  lemma PosMod(len: nat, k: nat)
    requires len > 0
    ensures Pos(len, k) == k % len < len
  {
    var q, r := k / len, k % len;
    assert k == q * len + r;
    PosIsMod(len, q, r);
  }

  /** Over an empty input the first element is already the last, and each
      advance moves the cursor one more step past it. */
  lemma {:induction false} EmptyRunsAway(k: nat)
    ensures Pos(0, k) == k
  {
    if k > 0 {
      EmptyRunsAway(k - 1);
    }
  }

  /** The cursor of one `cycle(...)` call. */
  class CycleIterator<T> {
    const src: seq<T>
    var it: nat

    /** `cycle_iterator(first, last)`. */
    constructor (src: seq<T>, it: nat)
      ensures this.src == src && this.it == it
    {
      this.src := src;
      this.it := it;
    }

    /** `operator*`: the current element. */
    function Deref(): (r: T)
      reads this
      requires it < |src|
      ensures r == src[it]
    {
      src[it]
    }

    /** `operator==`: never. */
    predicate Equals(other: CycleIterator<T>)
      ensures !Equals(other)
    {
      false
    }

    /** `operator==` corrected: a cycle over an empty input is itself
        empty, so its begin equals its end; otherwise never. */
    predicate EqualsOrEmpty(other: CycleIterator<T>)
      ensures EqualsOrEmpty(other) <==> src == []
    {
      |src| == 0
    }

    /** `operator++`: step and wrap. */
    method Advance()
      modifies this
      ensures it == Wrap(|src|, old(it))
      ensures |src| > 0 && old(it) < |src| ==> it < |src|
    {
      it := it + 1;
      if it == |src| {
        it := 0;
      }
    }
  }

  /** `cycle(first, last)`: begin at the first element, end at the last. */
  method Range<T>(src: seq<T>) returns (view: RangeView<CycleIterator<T>>)
    ensures fresh(view.first) && fresh(view.last)
    ensures view.first.src == src && view.first.it == 0
    ensures view.last.src == src && view.last.it == |src|
    ensures !view.first.Equals(view.last)
    ensures view.first.EqualsOrEmpty(view.last) <==> src == []
  {
    var first := new CycleIterator(src, 0);
    var last := new CycleIterator(src, |src|);
    view := RangeView(first, last);
  }
}
