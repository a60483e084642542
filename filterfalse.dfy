/** `filterfalse`: the elements of one input that a predicate rejects,
    built as a `filter` cursor over the negated predicate. */
module FilterFalse {
  import opened RangeViews
  import opened Filter

  /** The reversed predicate `filterfalse` hands to the filter cursor. */
  function Negate<T(!new)>(p: T -> bool): (q: T -> bool)
    ensures forall x :: q(x) == !p(x)
  {
    x => if p(x) then false else true
  }

  /** What `filter` keeps and what `filterfalse` keeps partition the input:
      together they hold every element exactly once. */
  lemma {:induction false} KeepPartition<T(!new)>(s: seq<T>, p: T -> bool)
    ensures |Keep(s, p)| + |Keep(s, Negate(p))| == |s|
    ensures multiset(Keep(s, p)) + multiset(Keep(s, Negate(p))) == multiset(s)
  {
    if s != [] {
      KeepPartition(s[1..], p);
      assert s == [s[0]] + s[1..];
    }
  }

  /** The output of `filterfalse` is exactly the in-order elements for which
      the predicate is false. */
  lemma FilterFalseOutput<T(!new)>(s: seq<T>, p: T -> bool)
    ensures Emit(s, Negate(p), 0) == Keep(s, Negate(p))
    ensures forall x :: x in Emit(s, Negate(p), 0) ==> x in s && !p(x)
  {
    FilterIsKeep(s, Negate(p), 0);
    assert s[0..] == s;
    KeepSound(s, Negate(p));
  }

  /** `filterfalse(predicate, first, last)`: begin and end built as for
      `filter`, over the negated predicate. */
  method Range<T(!new)>(pred: T -> bool, src: seq<T>) returns (view: RangeView<FilterIterator<T>>)
    ensures fresh(view.first) && fresh(view.last)
    ensures view.first.Valid() && view.first.src == src && view.first.pred == Negate(pred)
    ensures view.first.it == NextSelected(src, Negate(pred), 0)
    ensures view.last.Valid() && view.last.src == src && view.last.pred == Negate(pred)
    ensures view.last.it == |src|
  {
    var reversed := Negate(pred);
    var first := new FilterIterator(reversed, src, 0);
    var last := new FilterIterator(reversed, src, |src|);
    view := RangeView(first, last);
  }
}
