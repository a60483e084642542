/** Successive N-length combinations of one input with repeats allowed, in
    lexicographic order of positions: the nested engine with every level
    working over the same range as the level holding it. */
module CombinationsWithReplacement {
  import opened Levels
  import opened RangeViews
  import opened RewindEngine

  /** A nested level works over the same `(it, it_last)` and is rewound to
      the position of the level holding it. */
  const Gap: nat := 0

  /** The levels of the begin cursor that `combinations_with_replacement<N>`
      builds over an input of length `len`: over `(first, last)`, or over
      `(first, first)` when the input is shorter than N. */
  function BeginState(len: nat, n: nat): (r: seq<Level>)
    ensures |r| == n
    ensures len < n ==> AtLast(r)
    ensures 0 < n <= len ==> AllBelow(r) && forall i :: 0 <= i < n ==> r[i] == Level(0, len)
  {
    if len < n then
      BuiltAtLast(0, n, Gap);
      Built(0, 0, n, Gap)
    else
      BuiltFlat(0, len, n);
      Built(0, len, n, Gap)
  }

  /** The levels of the end cursor: over `(last, last)`, or over
      `(first, first)`. */
  function EndState(len: nat, n: nat): (r: seq<Level>)
    ensures |r| == n && AtLast(r)
    ensures 0 < n <= len ==> forall i :: 0 <= i < n ==> r[i] == Level(len, len)
  {
    var m := if len < n then 0 else len;
    BuiltAtLast(m, n, Gap);
    BuiltFlat(m, m, n);
    Built(m, m, n, Gap)
  }

  /** Counting: with at least N elements, begin reaches end after exactly
      C(len + N - 1, N) advances and equals it at no earlier state; with
      fewer, begin already equals end, so no tuple is produced. */
  lemma CombinationsWithReplacementCount(len: nat, n: nat)
    requires n >= 1
    ensures len < n ==> Cursors(BeginState(len, n)) == Cursors(EndState(len, n))
    ensures len >= n ==> Run(BeginState(len, n), Choose(len + n - 1, n), Gap) == EndState(len, n)
    ensures len >= n ==> forall j :: 0 <= j < Choose(len + n - 1, n) ==>
      Cursors(Run(BeginState(len, n), j, Gap)) != Cursors(EndState(len, n))
  {
    if len >= n {
      RunBuilt(0, len, n, Gap);
      StepsIsChoose(len, n);
      forall j | 0 <= j < Choose(len + n - 1, n)
        ensures Cursors(Run(BeginState(len, n), j, Gap)) != Cursors(EndState(len, n))
      {
        assert Cursors(Run(BeginState(len, n), j, Gap))[0] < len;
        assert Cursors(EndState(len, n))[0] == len;
      }
    }
  }

  /** Every state from begin up to (not including) end has non-decreasing
      positions, every position inside the input, and is lexicographically
      above the state before it. */
  lemma CombinationsWithReplacementShape(len: nat, n: nat, j: nat)
    requires n >= 1 && len >= n && j < Choose(len + n - 1, n)
    ensures var r := Run(BeginState(len, n), j, Gap);
      |r| == n && (forall i :: 0 <= i < n - 1 ==> r[i].it <= r[i + 1].it) &&
      (forall i :: 0 <= i < n ==> r[i].it < len)
    ensures j > 0 ==> LexLess(Cursors(Run(BeginState(len, n), j - 1, Gap)), Cursors(Run(BeginState(len, n), j, Gap)))
  {
    StepsIsChoose(len, n);
    RunBeforeEnd(0, len, n, Gap, j);
    BuiltShape(0, len, n, Gap, len);
    var r := Run(BeginState(len, n), j, Gap);
    assert forall i :: 0 <= i < n ==> r[i].it < r[i].last <= len;
  }

  /** The length check makes an input shorter than N, but not empty, give no
      tuple, although the nest built over the whole input would run through
      C(len + N - 1, N) > 0 tuples before reaching its end. */
  lemma ShortInputIsEmpty(len: nat, n: nat)
    requires 0 < len < n
    ensures Cursors(BeginState(len, n)) == Cursors(EndState(len, n))
    ensures Choose(len + n - 1, n) > 0
    ensures Run(Built(0, len, n, Gap), Choose(len + n - 1, n), Gap) == Built(len, len, n, Gap)
    ensures Cursors(Built(0, len, n, Gap)) != Cursors(Built(len, len, n, Gap))
  {
    StepsIsChoose(len, n);
    StepsPositive(len, n);
    RunBuilt(0, len, n, Gap);
    assert Cursors(Built(0, len, n, Gap))[0] == 0;
    assert Cursors(Built(len, len, n, Gap))[0] == len;
  }

  /** The cursor over one input, as `combinations_with_replacement_iterator<N>`
      lays it out. */
  class CombinationsWithReplacementIterator<T> {
    const src: seq<T>
    var levels: seq<Level>

    ghost predicate Valid()
      reads this
    {
      levels != [] && LastsShifted(levels, Gap)
    }

    /** `combinations_with_replacement_iterator(it, it_last)` with N levels. */
    constructor (src: seq<T>, it: nat, last: nat, n: nat)
      requires n > 0
      ensures Valid() && this.src == src && levels == Built(it, last, n, Gap)
    {
      this.src := src;
      levels := Built(it, last, n, Gap);
      BuiltShape(it, last, n, Gap, last + Gap * (n - 1));
    }

    /** `exhausted()` of the level k (and the levels nested inside it). */
    predicate Exhausted(k: nat)
      reads this
      requires k < |levels|
    {
      levels[k].it == levels[k].last
    }

    /** `operator*`: the elements at the current positions, outermost first. */
    function Deref(): (r: seq<T>)
      reads this
      requires forall i :: 0 <= i < |levels| ==> levels[i].it < |src|
      ensures r == Tuple(src, levels)
    {
      Tuple(src, levels)
    }

    /** `operator==`: the cursors at every level. */
    predicate Equals(other: CombinationsWithReplacementIterator<T>)
      reads this, other
      ensures |levels| == |other.levels| ==>
        (Equals(other) <==> forall i :: 0 <= i < |levels| ==> levels[i].it == other.levels[i].it)
      ensures SameLasts(levels, other.levels) && AtLast(other.levels) ==> (Equals(other) <==> AtLast(levels))
    {
      CursorsEqual(levels, other.levels);
      Cursors(levels) == Cursors(other.levels)
    }

    /** `rewind(p)` of the level k: it and every nested level go to p. */
    method RewindFrom(k: nat, p: nat)
      requires k < |levels|
      modifies this
      ensures levels == old(levels)[..k] + Rewind(old(levels)[k..], p, Gap)
      decreases |levels| - k
    {
      ghost var ls := levels;
      RewindAt(ls, k, p, Gap);
      levels := levels[k := Level(p, levels[k].last)];
      if k + 1 < |levels| {
        ghost var mid := levels;
        assert mid[k + 1..] == ls[k + 1..];
        RewindFrom(k + 1, p + Gap);
        MoveThenReplace(ls, k, p, Rewind(ls[k + 1..], p + Gap, Gap), levels);
      } else {
        assert levels == ls[..k] + [Level(p, ls[k].last)];
      }
    }

    /** `operator++`. */
    method Advance()
      requires Valid()
      modifies this
      ensures Valid() && levels == Next(old(levels), Gap)
    {
      ghost var ls := levels;
      AdvanceFrom(0);
      assert ls[..0] == [] && ls[0..] == ls;
      NextSameLasts(ls, Gap);
      LastsShiftedSame(levels, ls, Gap);
    }

    /** `operator++` of the level k: advance the nested levels; when they are
        exhausted, bump level k and rewind them to its new position. */
    method AdvanceFrom(k: nat)
      requires k < |levels|
      modifies this
      ensures levels == old(levels)[..k] + Next(old(levels)[k..], Gap)
      decreases |levels| - k
    {
      ghost var ls := levels;
      if k == |levels| - 1 {
        levels := levels[k := Level(levels[k].it + 1, levels[k].last)];
        assert ls[k..] == [ls[k]];
        assert levels == ls[..k] + [Level(ls[k].it + 1, ls[k].last)];
      } else {
        NextAt(ls, k, Gap);
        ghost var sub := Next(ls[k + 1..], Gap);
        AdvanceFrom(k + 1);
        assert levels[k] == ls[k] && levels[k + 1..] == sub;
        if Exhausted(k + 1) {
          ghost var mid := levels;
          levels := levels[k := Level(levels[k].it + 1, levels[k].last)];
          assert levels[k + 1..] == sub;
          RewindFrom(k + 1, levels[k].it + Gap);
          MoveThenReplace(mid, k, ls[k].it + 1, Rewind(sub, ls[k].it + 1 + Gap, Gap), levels);
          assert mid[..k] == ls[..k];
        } else {
          assert levels == ls[..k] + ([ls[k]] + sub);
        }
      }
    }
  }

  /** `combinations_with_replacement<N>(first, last)`: N must be positive;
      an input shorter than N gives an empty range. */
  method Range<T>(src: seq<T>, n: nat) returns (view: RangeView<CombinationsWithReplacementIterator<T>>)
    requires n > 0
    ensures fresh(view.first) && fresh(view.last) && view.first != view.last
    ensures view.first.Valid() && view.first.src == src && view.first.levels == BeginState(|src|, n)
    ensures view.last.Valid() && view.last.src == src && view.last.levels == EndState(|src|, n)
  {
    var len := |src|;
    if len < n {
      var first := new CombinationsWithReplacementIterator(src, 0, 0, n);
      var last := new CombinationsWithReplacementIterator(src, 0, 0, n);
      view := RangeView(first, last);
    } else {
      var first := new CombinationsWithReplacementIterator(src, 0, len, n);
      var last := new CombinationsWithReplacementIterator(src, len, len, n);
      view := RangeView(first, last);
    }
  }
}
