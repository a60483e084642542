/** `filter`: the elements of one input that satisfy a predicate, in order.
    The cursor always rests on a selected element or at the input's last. */
module Filter {
  import opened RangeViews

  /** The elements of `s` satisfying `p`, in order: the reference the
      iteration is proved against. */
  function Keep<T>(s: seq<T>, p: T -> bool): seq<T>
  {
    if s == [] then [] else (if p(s[0]) then [s[0]] else []) + Keep(s[1..], p)
  }

  /** Where `next_selected` stops when started at `i`: the first position
      from `i` on that is the last or holds a selected element. */
  function NextSelected<T>(s: seq<T>, p: T -> bool, i: nat): (j: nat)
    requires i <= |s|
    ensures i <= j <= |s|
    ensures j < |s| ==> p(s[j])
    ensures forall k :: i <= k < j ==> !p(s[k])
    decreases |s| - i
  {
    if i == |s| || p(s[i]) then i else NextSelected(s, p, i + 1)
  }

  /** Any position with the three properties of `NextSelected` is it. */
  lemma {:induction false} NextSelectedUnique<T>(s: seq<T>, p: T -> bool, i: nat, j: nat)
    requires i <= j <= |s| && (j < |s| ==> p(s[j])) && forall k :: i <= k < j ==> !p(s[k])
    ensures NextSelected(s, p, i) == j
    decreases j - i
  {
    if i < j {
      NextSelectedUnique(s, p, i + 1, j);
    }
  }

  lemma KeepCons<T>(x: T, t: seq<T>, p: T -> bool)
    ensures Keep([x] + t, p) == (if p(x) then [x] else []) + Keep(t, p)
  {
    assert ([x] + t)[1..] == t;
  }

  /** What a range-for loop emits from a cursor at `i` (not yet skipped)
      up to the end at the last. */
  function Emit<T>(s: seq<T>, p: T -> bool, i: nat): seq<T>
    requires i <= |s|
    decreases |s| - i
  {
    var j := NextSelected(s, p, i);
    if j == |s| then [] else [s[j]] + Emit(s, p, j + 1)
  }

  lemma {:induction false} KeepSkipsRejected<T>(s: seq<T>, p: T -> bool, i: nat)
    requires i <= |s|
    ensures Keep(s[i..], p) == Keep(s[NextSelected(s, p, i)..], p)
    decreases |s| - i
  {
    if i < |s| && !p(s[i]) {
      assert s[i..][1..] == s[i + 1..];
      KeepSkipsRejected(s, p, i + 1);
    }
  }

  /** The filtered output is exactly the in-order subsequence of the
      elements satisfying the predicate. */
  lemma {:induction false} FilterIsKeep<T>(s: seq<T>, p: T -> bool, i: nat)
    requires i <= |s|
    ensures Emit(s, p, i) == Keep(s[i..], p)
    decreases |s| - i
  {
    var j := NextSelected(s, p, i);
    KeepSkipsRejected(s, p, i);
    if j < |s| {
      assert s[j..][1..] == s[j + 1..];
      FilterIsKeep(s, p, j + 1);
    }
  }

  /** Every kept element satisfies the predicate, and no kept sequence is
      longer than its input. */
  lemma {:induction false} KeepSound<T>(s: seq<T>, p: T -> bool)
    ensures |Keep(s, p)| <= |s|
    ensures forall x :: x in Keep(s, p) ==> x in s && p(x)
  {
    if s != [] {
      KeepSound(s[1..], p);
    }
  }

  /** `boolean_transformer` over integers: an element is selected when it
      is non-zero. */
  function Truthy(x: int): bool
  {
    x != 0
  }

  /** The cursor of one `filter(...)` call. */
  class FilterIterator<T> {
    const src: seq<T>
    const pred: T -> bool
    var it: nat

    /** The cursor is at the last or on a selected element. */
    ghost predicate Valid()
      reads this
    {
      it <= |src| && (it < |src| ==> pred(src[it]))
    }

    /** `filter_iterator(fn, it, last)`: skip to the first selected element. */
    constructor (pred: T -> bool, src: seq<T>, it: nat)
      requires it <= |src|
      ensures Valid() && this.src == src && this.pred == pred
      ensures this.it == NextSelected(src, pred, it)
    {
      this.src := src;
      this.pred := pred;
      this.it := it;
      new;
      SkipRejected();
    }

    /** `next_selected`: step past every element the predicate rejects. */
    method SkipRejected()
      requires it <= |src|
      modifies this
      ensures Valid() && it == NextSelected(src, pred, old(it))
    {
      ghost var start := it;
      while it != |src| && !pred(src[it])
        invariant start <= it <= |src|
        invariant forall k :: start <= k < it ==> !pred(src[k])
        decreases |src| - it
      {
        it := it + 1;
      }
      NextSelectedUnique(src, pred, start, it);
    }

    /** `operator*`: the current element, always a selected one. */
    function Deref(): (r: T)
      reads this
      requires Valid() && it < |src|
      ensures r == src[it] && pred(r)
    {
      src[it]
    }

    /** `operator==`: the cursors match. */
    predicate Equals(other: FilterIterator<T>)
      reads this, other
      ensures Equals(other) <==> it == other.it
    {
      it == other.it
    }

    /** `operator++`: one step, then skip rejected elements; the cursor moves
        at least one position and every element passed over is rejected. */
    method Advance()
      requires Valid() && it < |src|
      modifies this
      ensures Valid() && it == NextSelected(src, pred, old(it) + 1) && it > old(it)
      ensures forall k :: old(it) < k < it ==> !pred(src[k])
    {
      it := it + 1;
      SkipRejected();
    }
  }

  /** `filter(predicate, first, last)`: begin skips to the first selected
      element, end is at the last. */
  method Range<T>(pred: T -> bool, src: seq<T>) returns (view: RangeView<FilterIterator<T>>)
    ensures fresh(view.first) && fresh(view.last)
    ensures view.first.Valid() && view.first.src == src && view.first.pred == pred
    ensures view.first.it == NextSelected(src, pred, 0)
    ensures view.last.Valid() && view.last.src == src && view.last.pred == pred && view.last.it == |src|
  {
    var first := new FilterIterator(pred, src, 0);
    var last := new FilterIterator(pred, src, |src|);
    view := RangeView(first, last);
  }
}
