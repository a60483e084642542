/** `dropwhile`: skip the leading elements the predicate accepts, then pass
    every remaining element through. No cursor type of its own: the result
    is a view over the input's own cursors. */
module DropWhile {
  import opened RangeViews
  import opened TakeWhile

  /** `s` without its longest accepted prefix. */
  function DropPrefix<T>(s: seq<T>, p: T -> bool): seq<T>
  {
    if s != [] && p(s[0]) then DropPrefix(s[1..], p) else s
  }

  /** What `takewhile` is meant to keep and what `dropwhile` keeps put the
      input back together. */
  lemma {:induction false} TakeThenDrop<T>(s: seq<T>, p: T -> bool)
    ensures TakePrefix(s, p) + DropPrefix(s, p) == s
  {
    if s != [] && p(s[0]) {
      TakeThenDrop(s[1..], p);
      assert s == [s[0]] + s[1..];
    }
  }

  lemma {:induction false} DropAt<T>(s: seq<T>, p: T -> bool, i: nat)
    requires i <= |s| && forall k :: 0 <= k < i ==> p(s[k])
    ensures DropPrefix(s, p) == DropPrefix(s[i..], p)
  {
    if i > 0 {
      DropAt(s[1..], p, i - 1);
      assert s[1..][i - 1..] == s[i..];
    }
  }

  /** `dropwhile(predicate, first, last)`: every dropped element is
      accepted, the new first is the last or a rejected element, and the
      view is the rest of the input up to its last. */
  method Range<T>(pred: T -> bool, src: seq<T>) returns (view: RangeView<nat>)
    ensures view.first <= view.last == |src|
    ensures forall k :: 0 <= k < view.first ==> pred(src[k])
    ensures view.first < |src| ==> !pred(src[view.first])
    ensures src[view.first..] == DropPrefix(src, pred)
  {
    var first := 0;
    while first != |src| && pred(src[first])
      invariant first <= |src|
      invariant forall k :: 0 <= k < first ==> pred(src[k])
      decreases |src| - first
    {
      first := first + 1;
    }
    DropAt(src, pred, first);
    view := RangeView(first, |src|);
  }

  /** Over 1 2 3 4 5 with `n < 3`: 3 4 5, and a later accepted element would
      pass through. */
  lemma OneToFive(s: seq<int>)
    requires s == [1, 2, 3, 4, 5]
    ensures DropPrefix(s, Below3) == [3, 4, 5]
    ensures DropPrefix([1, 3, 1], Below3) == [3, 1]
  {
    assert s[1..] == [2, 3, 4, 5] && s[1..][1..] == [3, 4, 5];
    assert DropPrefix([3, 4, 5], Below3) == [3, 4, 5];
    assert DropPrefix([2, 3, 4, 5], Below3) == [3, 4, 5] by {
      assert [2, 3, 4, 5][1..] == [3, 4, 5];
    }
    assert [1, 3, 1][1..] == [3, 1];
  }
}
