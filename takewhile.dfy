/** `takewhile`: meant to yield the input's elements up to the first one the
    predicate rejects. Its cursor skips rejected elements exactly as the
    `filter` cursor does, so it yields every accepted element instead; the
    corrected stop is modelled beside it. */
module TakeWhile {
  import opened RangeViews
  import opened Filter

  /** The longest prefix of `s` whose elements all satisfy `p`: the output
      the documented behaviour asks for. */
  function TakePrefix<T>(s: seq<T>, p: T -> bool): (r: seq<T>)
    ensures |r| <= |s| && r == s[..|r|]
    ensures forall k :: 0 <= k < |r| ==> p(r[k])
    ensures |r| < |s| ==> !p(s[|r|])
  {
    if s == [] || !p(s[0]) then [] else [s[0]] + TakePrefix(s[1..], p)
  }

  /** The output as written is that of `filter`: every accepted element. */
  lemma TakeWhileAsWritten<T>(s: seq<T>, p: T -> bool)
    ensures Emit(s, p, 0) == Keep(s, p)
  {
    FilterIsKeep(s, p, 0);
    assert s[0..] == s;
  }

  function Below3(n: int): bool
  {
    n < 3
  }

  /** Over 1 5 2 with `n < 3` the cursor carries on past the rejected 5 and
      yields 1 2, where the documented output is 1. */
  lemma KeepsPastRejected(s: seq<int>)
    requires s == [1, 5, 2]
    ensures Keep(s, Below3) == [1, 2]
    ensures TakePrefix(s, Below3) == [1]
  {
    KeepCons(2, [], Below3);
    KeepCons(5, [2], Below3);
    KeepCons(1, [5, 2], Below3);
    assert s[1..] == [5, 2];
  }

  /** Over 1 2 3 4 5 with `n < 3` both agree on 1 2. */
  lemma OneToFive(s: seq<int>)
    requires s == [1, 2, 3, 4, 5]
    ensures Keep(s, Below3) == [1, 2] && TakePrefix(s, Below3) == [1, 2]
  {
    KeepCons(5, [], Below3);
    KeepCons(4, [5], Below3);
    KeepCons(3, [4, 5], Below3);
    KeepCons(2, [3, 4, 5], Below3);
    KeepCons(1, [2, 3, 4, 5], Below3);
    assert s[1..] == [2, 3, 4, 5] && s[1..][1..] == [3, 4, 5];
  }

  /** Corrected `next_selected`: a rejected element ends the range. */
  function NextTaken<T>(s: seq<T>, p: T -> bool, i: nat): (j: nat)
    requires i <= |s|
    ensures i <= j <= |s| && (j < |s| ==> j == i && p(s[j]))
  {
    if i < |s| && !p(s[i]) then |s| else i
  }

  /** What the corrected cursor emits from `i` up to the end. */
  function EmitTaken<T>(s: seq<T>, p: T -> bool, i: nat): seq<T>
    requires i <= |s|
    decreases |s| - i
  {
    var j := NextTaken(s, p, i);
    if j == |s| then [] else [s[j]] + EmitTaken(s, p, j + 1)
  }

  /** The corrected cursor emits exactly the accepted prefix. */
  lemma {:induction false} TakenIsPrefix<T>(s: seq<T>, p: T -> bool, i: nat)
    requires i <= |s|
    ensures EmitTaken(s, p, i) == TakePrefix(s[i..], p)
    decreases |s| - i
  {
    if i < |s| && p(s[i]) {
      assert s[i..][1..] == s[i + 1..];
      TakenIsPrefix(s, p, i + 1);
    }
  }

  /** The cursor of one `takewhile(...)` call. */
  class TakeWhileIterator<T> {
    const src: seq<T>
    const pred: T -> bool
    var it: nat

    ghost predicate Valid()
      reads this
    {
      it <= |src| && (it < |src| ==> pred(src[it]))
    }

    /** `takewhile_iterator(fn, first, last)`: skip as `next_selected` does. */
    constructor (pred: T -> bool, src: seq<T>, it: nat)
      requires it <= |src|
      ensures Valid() && this.src == src && this.pred == pred
      ensures this.it == NextSelected(src, pred, it)
    {
      this.src := src;
      this.pred := pred;
      this.it := it;
      new;
      SkipRejected();
    }

    /** `next_selected` as written: pass over every rejected element. */
    method SkipRejected()
      requires it <= |src|
      modifies this
      ensures Valid() && it == NextSelected(src, pred, old(it))
    {
      ghost var start := it;
      while it != |src| && !pred(src[it])
        invariant start <= it <= |src|
        invariant forall k :: start <= k < it ==> !pred(src[k])
        decreases |src| - it
      {
        it := it + 1;
      }
      NextSelectedUnique(src, pred, start, it);
    }

    /** `next_selected` corrected: a rejected element sends the cursor to
        the last. */
    method StopAtRejected()
      requires it <= |src|
      modifies this
      ensures Valid() && it == NextTaken(src, pred, old(it))
    {
      if it != |src| && !pred(src[it]) {
        it := |src|;
      }
    }

    /** `operator*`: the current element. */
    function Deref(): (r: T)
      reads this
      requires Valid() && it < |src|
      ensures r == src[it] && pred(r)
    {
      src[it]
    }

    /** `operator==`: the cursors match. */
    predicate Equals(other: TakeWhileIterator<T>)
      reads this, other
      ensures Equals(other) <==> it == other.it
    {
      it == other.it
    }

    /** `operator++` as written: one step, then skip. */
    method Advance()
      requires Valid() && it < |src|
      modifies this
      ensures Valid() && it == NextSelected(src, pred, old(it) + 1)
    {
      it := it + 1;
      SkipRejected();
    }

    /** `operator++` corrected: one step, then stop at a rejected element. */
    method AdvanceOrStop()
      requires Valid() && it < |src|
      modifies this
      ensures Valid() && it == NextTaken(src, pred, old(it) + 1)
    {
      it := it + 1;
      StopAtRejected();
    }
  }

  /** `takewhile(predicate, first, last)`. */
  method Range<T>(pred: T -> bool, src: seq<T>) returns (view: RangeView<TakeWhileIterator<T>>)
    ensures fresh(view.first) && fresh(view.last)
    ensures view.first.Valid() && view.first.src == src && view.first.pred == pred
    ensures view.first.it == NextSelected(src, pred, 0)
    ensures view.last.Valid() && view.last.src == src && view.last.pred == pred && view.last.it == |src|
  {
    var first := new TakeWhileIterator(pred, src, 0);
    var last := new TakeWhileIterator(pred, src, |src|);
    view := RangeView(first, last);
  }
}
