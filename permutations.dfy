/** Successive length-N arrangements of one input, as the code runs them: a
    product of N copies of the input whose advance keeps stepping while a
    nested level repeats the position of the level holding it. Positions,
    not values, decide what counts as a repeat. */
module Permutations {
  import opened Levels
  import opened RangeViews
  import Product

  /** The levels of `permutations_impl::begin()` over N copies of an input
      of length `len`: every cursor at position 0, with no repeat filter. */
  function BeginState(len: nat, n: nat): (r: seq<Level>)
    ensures |r| == n && forall i :: 0 <= i < n ==> r[i] == Level(0, len)
    ensures n > 0 ==> (AllBelow(r) <==> len > 0)
  {
    var r := seq(n, i => Level(0, len));
    assert n > 0 ==> r[0] == Level(0, len);
    r
  }

  /** The levels of `permutations_impl::end()`: every cursor at `len`. */
  function EndState(len: nat, n: nat): (r: seq<Level>)
    ensures |r| == n && AtLast(r) && SameLasts(r, BeginState(len, n))
  {
    seq(n, i => Level(len, len))
  }

  /** `repeated(p)`: this level's cursor, or the cursor of some level nested
      inside it, is at position `p`. */
  function Repeated(ls: seq<Level>, p: nat): (r: bool)
    requires ls != []
    ensures r <==> exists i :: 0 <= i < |ls| && ls[i].it == p
  {
    if |ls| == 1 then ls[0].it == p
    else
      assert forall i :: 1 <= i < |ls| ==> ls[1..][i - 1] == ls[i];
      ls[0].it == p || Repeated(ls[1..], p)
  }

  /** One pass of the do-while loop in `operator++` for a nest of two or
      more levels: advance the nested part; on carry bump this level and,
      unless it has reached its last, put the nested part back to its saved
      first copy. Each pass raises the rank. */
  function Step(ls: seq<Level>): (r: seq<Level>)
    requires |ls| > 1 && AllBelow(ls)
    ensures SameLasts(r, ls)
    ensures AtLast(r) <==> r[0].it == r[0].last
    ensures AtLast(r) || (AllBelow(r) && Value(r) > Value(ls) && Size(r) == Size(ls))
    decreases |ls|, 0
  {
    var t := ls[1..];
    var sub := Next(t);
    if AtLast(sub) then
      var h := ls[0].(it := ls[0].it + 1);
      if h.it == h.last then
        AtLastCons(h, sub);
        [h] + sub
      else
        CarryRaisesRank(ls[0], t, sub);
        [h] + Reset(sub)
    else
      InnerRaisesRank(ls[0], t, sub);
      [ls[0]] + sub
  }

  /** The loop exit test: this level reached its last (the `break`), or the
      nested part no longer repeats this level's position. */
  predicate Halts(s: seq<Level>)
    requires |s| > 1
    ensures Halts(s) <==> s[0].it == s[0].last || forall j :: 1 <= j < |s| ==> s[j].it != s[0].it
  {
    assert forall j :: 1 <= j < |s| ==> s[1..][j - 1] == s[j];
    s[0].it == s[0].last || !Repeated(s[1..], s[0].it)
  }

  /** One `operator++`: passes of `Step` for as long as the nested part
      repeats this level's position. Each pass raises the rank, which bounds
      the loop. */
  function Next(ls: seq<Level>): (r: seq<Level>)
    requires ls != [] && AllBelow(ls)
    ensures SameLasts(r, ls)
    ensures AtLast(r) || (AllBelow(r) && Value(r) > Value(ls))
    ensures |r| > 1 && !AtLast(r) ==> !Repeated(r[1..], r[0].it)
    decreases |ls|, Size(ls) - Value(ls), 1
  {
    ValueBelowSize(ls);
    if |ls| == 1 then [ls[0].(it := ls[0].it + 1)]
    else
      var s := Step(ls);
      if Halts(s) then s else Next(s)
  }

  lemma InnerRaisesRank(h: Level, t: seq<Level>, sub: seq<Level>)
    requires h.it < h.last && SameLasts(sub, t) && AllBelow(sub) && Value(sub) > Value(t)
    ensures SameLasts([h] + sub, [h] + t) && AllBelow([h] + sub)
    ensures Value([h] + sub) > Value([h] + t) && Size([h] + sub) == Size([h] + t)
  {
    ValueCons(h, sub);
    ValueCons(h, t);
    SizeDependsOnLasts(sub, t);
  }

  lemma CarryRaisesRank(h: Level, t: seq<Level>, sub: seq<Level>)
    requires h.it + 1 < h.last && SameLasts(sub, t) && AllBelow(t)
    ensures var s := [h.(it := h.it + 1)] + Reset(sub);
      SameLasts(s, [h] + t) && AllBelow(s) && Value(s) > Value([h] + t) && Size(s) == Size([h] + t)
  {
    var h' := h.(it := h.it + 1);
    ResetValue(sub);
    SizeDependsOnLasts(sub, t);
    ValueCons(h', Reset(sub));
    ValueCons(h, t);
    ValueBelowSize(t);
    DigitDominates(h.it + 1, h.it, Size(t), 0, Value(t));
  }

  /** Each advance from a dereferenceable state strictly increases the
      position tuple in lexicographic order. */
  lemma NextIsLexGreater(ls: seq<Level>)
    requires ls != [] && AllBelow(ls)
    ensures LexLess(Cursors(ls), Cursors(Next(ls)))
  {
    var r := Next(ls);
    if AtLast(r) {
      BelowIsLexBeforeLast(ls, r);
    } else {
      ValueOrderIsLex(ls, r);
    }
  }

  /** The position tuples a range-for loop visits from `ls` until it
      compares equal to end. There are at most as many as the ranks left. */
  function Emitted(ls: seq<Level>): (r: seq<seq<nat>>)
    requires ls != [] && (AllBelow(ls) || AtLast(ls))
    ensures AtLast(ls) ==> r == []
    ensures AllBelow(ls) ==> 0 < |r| <= Size(ls) - Value(ls) && r[0] == Cursors(ls)
    decreases if AllBelow(ls) then Size(ls) - Value(ls) else 0
  {
    if AtLast(ls) then
      AtLastIsNotBelow(ls);
      []
    else
      ValueBelowSize(ls);
      var n := Next(ls);
      SizeDependsOnLasts(n, ls);
      [Cursors(ls)] + Emitted(n)
  }

  lemma AtLastIsNotBelow(ls: seq<Level>)
    requires ls != [] && AtLast(ls)
    ensures !AllBelow(ls)
  {
    assert ls[0].it == ls[0].last;
  }

  /** `begin()` is not filtered: for N >= 2 over a non-empty input, the first
      tuple emitted uses position 0 at every level. */
  lemma BeginRepeatsPositions(len: nat, n: nat)
    requires len > 0 && n >= 2
    ensures AllBelow(BeginState(len, n))
    ensures Repeated(BeginState(len, n)[1..], BeginState(len, n)[0].it)
    ensures Emitted(BeginState(len, n))[0] == seq(n, i => 0)
  {
    var b := BeginState(len, n);
    assert b[1..][0].it == 0;
  }

  lemma EmittedStep(ls: seq<Level>)
    requires ls != [] && AllBelow(ls)
    ensures Emitted(ls) == [Cursors(ls)] + Emitted(Next(ls))
  {
  }

  lemma StepKeeps(h: Level, t: seq<Level>)
    requires t != [] && h.it < h.last && AllBelow(t) && !AtLast(Next(t))
    ensures Step([h] + t) == [h] + Next(t)
  {
    assert ([h] + t)[1..] == t;
  }

  lemma StepCarries(h: Level, t: seq<Level>)
    requires t != [] && h.it + 1 < h.last && AllBelow(t) && AtLast(Next(t))
    ensures Step([h] + t) == [h.(it := h.it + 1)] + Reset(Next(t))
  {
    assert ([h] + t)[1..] == t;
  }

  lemma StepBreaks(h: Level, t: seq<Level>)
    requires t != [] && h.it + 1 == h.last && AllBelow(t) && AtLast(Next(t))
    ensures Step([h] + t) == [h.(it := h.last)] + Next(t)
  {
    assert ([h] + t)[1..] == t;
  }

  lemma NextStops(ls: seq<Level>)
    requires |ls| > 1 && AllBelow(ls) && Halts(Step(ls))
    ensures Next(ls) == Step(ls)
  {
  }

  lemma NextSkips(ls: seq<Level>)
    requires |ls| > 1 && AllBelow(ls) && !Halts(Step(ls))
    ensures AllBelow(Step(ls)) && Next(ls) == Next(Step(ls))
  {
  }

  lemma LastsStay(a: seq<Level>, b: seq<Level>, len: nat)
    requires SameLasts(a, b) && forall i :: 0 <= i < |b| ==> b[i].last == len
    ensures forall i :: 0 <= i < |a| ==> a[i].last == len
  {
  }

  /** No two levels share a position: the tuple is an arrangement. */
  predicate Distinct(ls: seq<Level>)
  {
    forall i, j :: 0 <= i < j < |ls| ==> ls[i].it != ls[j].it
  }

  /** No position occurs twice in a tuple of positions. */
  predicate NoRepeats(t: seq<nat>)
  {
    forall i, j :: 0 <= i < j < |t| ==> t[i] != t[j]
  }

  /** The corrected filter: from a state in product order, pass over every
      tuple that repeats a position, stopping at the first arrangement or at
      the end. */
  function SkipRepeats(ls: seq<Level>): (r: seq<Level>)
    requires ls != [] && (AllBelow(ls) || AtLast(ls))
    ensures SameLasts(r, ls)
    ensures AtLast(r) || (AllBelow(r) && Distinct(r) && Value(r) >= Value(ls))
    ensures AllBelow(ls) && Distinct(ls) ==> r == ls
    decreases if AtLast(ls) then 0 else Size(ls) - Value(ls)
  {
    if AtLast(ls) || Distinct(ls) then ls
    else
      ValueBelowSize(ls);
      Product.NextStepsByOne(ls);
      var n := Product.Next(ls);
      SizeDependsOnLasts(n, ls);
      SkipRepeats(n)
  }

  /** `operator++` corrected: one step in product order, then past every
      tuple that repeats a position. The result is an arrangement or the
      end, and lexicographically after the state advanced from. */
  function NextDistinct(ls: seq<Level>): (r: seq<Level>)
    requires ls != [] && AllBelow(ls)
    ensures SameLasts(r, ls)
    ensures AtLast(r) || (AllBelow(r) && Distinct(r) && Value(r) > Value(ls))
    ensures LexLess(Cursors(ls), Cursors(r))
  {
    Product.NextStepsByOne(ls);
    var r := SkipRepeats(Product.Next(ls));
    LexAfter(ls, r);
    r
  }

  /** A later state over the same lasts, by rank or at the end, is
      lexicographically after. */
  lemma LexAfter(ls: seq<Level>, r: seq<Level>)
    requires ls != [] && AllBelow(ls) && SameLasts(ls, r)
    requires AtLast(r) || (AllBelow(r) && Value(r) > Value(ls))
    ensures LexLess(Cursors(ls), Cursors(r))
  {
    if AtLast(r) {
      BelowIsLexBeforeLast(ls, r);
    } else {
      ValueOrderIsLex(ls, r);
    }
  }

  /** The corrected filter skips no arrangement: every tuple whose rank lies
      from `ls` up to (not including) the state it stops at repeats a
      position. */
  lemma {:induction false} SkipRepeatsComplete(ls: seq<Level>, t: seq<Level>)
    requires ls != [] && AllBelow(ls)
    requires SameLasts(t, ls) && AllBelow(t) && Value(ls) <= Value(t)
    requires AtLast(SkipRepeats(ls)) || Value(t) < Value(SkipRepeats(ls))
    ensures !Distinct(t)
    decreases Size(ls) - Value(ls)
  {
    ValueBelowSize(ls);
    if Value(t) == Value(ls) {
      ValueInjective(t, ls);
    } else if Distinct(ls) {
      assert false;
    } else {
      Product.NextStepsByOne(ls);
      var n := Product.Next(ls);
      SizeDependsOnLasts(t, ls);
      ValueBelowSize(t);
      if !AtLast(n) {
        SizeDependsOnLasts(n, ls);
        assert SkipRepeats(ls) == SkipRepeats(n);
        SkipRepeatsComplete(n, t);
      }
    }
  }

  /** The corrected advance skips no arrangement: every tuple strictly after
      `ls` in rank and before the state it lands on repeats a position. */
  lemma NextDistinctComplete(ls: seq<Level>, t: seq<Level>)
    requires ls != [] && AllBelow(ls)
    requires SameLasts(t, ls) && AllBelow(t) && Value(ls) < Value(t)
    requires AtLast(NextDistinct(ls)) || Value(t) < Value(NextDistinct(ls))
    ensures !Distinct(t)
  {
    ValueBelowSize(ls);
    Product.NextStepsByOne(ls);
    var n := Product.Next(ls);
    SizeDependsOnLasts(t, ls);
    ValueBelowSize(t);
    if !AtLast(n) {
      SizeDependsOnLasts(n, ls);
      SkipRepeatsComplete(n, t);
    }
  }

  /** The corrected begin: the first arrangement in product order, or the
      end when there is none. */
  function DistinctBeginState(len: nat, n: nat): (r: seq<Level>)
    requires n > 0
    ensures SameLasts(r, BeginState(len, n))
    ensures AtLast(r) || (AllBelow(r) && Distinct(r))
  {
    SkipRepeats(BeginState(len, n))
  }

  /** The position tuples the corrected iteration visits from `ls` until the
      end: every one of them is an arrangement. */
  function EmittedDistinct(ls: seq<Level>): (r: seq<seq<nat>>)
    requires ls != [] && (AtLast(ls) || (AllBelow(ls) && Distinct(ls)))
    ensures AtLast(ls) ==> r == []
    ensures AllBelow(ls) ==> 0 < |r| <= Size(ls) - Value(ls) && r[0] == Cursors(ls)
    ensures forall k :: 0 <= k < |r| ==> |r[k]| == |ls| && NoRepeats(r[k])
    decreases if AllBelow(ls) then Size(ls) - Value(ls) else 0
  {
    if AtLast(ls) then
      AtLastIsNotBelow(ls);
      []
    else
      ValueBelowSize(ls);
      var n := NextDistinct(ls);
      SizeDependsOnLasts(n, ls);
      assert NoRepeats(Cursors(ls));
      [Cursors(ls)] + EmittedDistinct(n)
  }

  /** The cursor over N copies of one input, as built by `permutations_impl`. */
  class PermutationsIterator<T> {
    const src: seq<T>
    var levels: seq<Level>

    ghost predicate Valid()
      reads this
    {
      levels != [] && forall i :: 0 <= i < |levels| ==> levels[i].last == |src|
    }

    /** `permutations_impl::begin()`. */
    constructor Begin(src: seq<T>, n: nat)
      requires n > 0
      ensures Valid() && this.src == src && levels == BeginState(|src|, n)
    {
      this.src := src;
      levels := BeginState(|src|, n);
    }

    /** `permutations_impl::begin()` corrected: at the first arrangement. */
    constructor BeginArrangement(src: seq<T>, n: nat)
      requires n > 0
      ensures Valid() && this.src == src && levels == DistinctBeginState(|src|, n)
    {
      var ls := DistinctBeginState(|src|, n);
      LastsStay(ls, BeginState(|src|, n), |src|);
      this.src := src;
      levels := ls;
    }

    /** `permutations_impl::end()`. */
    constructor End(src: seq<T>, n: nat)
      requires n > 0
      ensures Valid() && this.src == src && levels == EndState(|src|, n)
    {
      this.src := src;
      levels := EndState(|src|, n);
    }

    /** `operator*`: the elements at the current positions, outermost first. */
    function Deref(): (r: seq<T>)
      reads this
      requires Valid() && AllBelow(levels)
      ensures |r| == |levels| && forall i :: 0 <= i < |r| ==> r[i] == src[levels[i].it]
    {
      seq(|levels|, i reads this requires 0 <= i < |levels| && AllBelow(levels) && Valid() => src[levels[i].it])
    }

    /** `operator==`: the cursors at every level. */
    predicate Equals(other: PermutationsIterator<T>)
      reads this, other
      ensures |levels| == |other.levels| ==>
        (Equals(other) <==> forall i :: 0 <= i < |levels| ==> levels[i].it == other.levels[i].it)
      ensures SameLasts(levels, other.levels) && AtLast(other.levels) ==> (Equals(other) <==> AtLast(levels))
    {
      CursorsEqual(levels, other.levels);
      Cursors(levels) == Cursors(other.levels)
    }

    /** `operator++` corrected: step the levels in product order until they
        hold an arrangement or reach the end. */
    method AdvanceToArrangement()
      requires Valid() && AllBelow(levels)
      modifies this
      ensures Valid() && levels == NextDistinct(old(levels))
    {
      ghost var ls := levels;
      Product.NextStepsByOne(levels);
      levels := Product.Next(levels);
      while !AtLast(levels) && !Distinct(levels)
        invariant levels != [] && SameLasts(levels, ls) && (AllBelow(levels) || AtLast(levels))
        invariant SkipRepeats(levels) == NextDistinct(ls)
        decreases if AtLast(levels) then 0 else Size(levels) - Value(levels)
      {
        ValueBelowSize(levels);
        Product.NextStepsByOne(levels);
        SizeDependsOnLasts(Product.Next(levels), levels);
        levels := Product.Next(levels);
      }
      LastsStay(levels, ls, |src|);
    }

    /** `operator++`. */
    method Advance()
      requires Valid() && AllBelow(levels)
      modifies this
      ensures Valid() && levels == Next(old(levels))
    {
      ghost var ls := levels;
      AdvanceFrom(0);
      Parts([], ls);
      Parts([], Next(ls));
      LastsStay(levels, ls, |src|);
    }

    /** `operator++` of the sub-cursor made of levels k, k+1, ...: the
        do-while loop of the source. */
    method AdvanceFrom(k: nat)
      requires k < |levels| && AllBelow(levels[k..])
      modifies this
      ensures levels == old(levels)[..k] + Next(old(levels)[k..])
      decreases |levels| - k, 1
    {
      ghost var goal := Next(levels[k..]);
      if k == |levels| - 1 {
        levels := levels[k := levels[k].(it := levels[k].it + 1)];
        assert levels[k..] == goal;
      } else {
        var done := false;
        while !done
          invariant |levels| == |old(levels)| && levels[..k] == old(levels)[..k]
          invariant !done ==> AllBelow(levels[k..]) && Next(levels[k..]) == goal
          invariant done ==> levels[k..] == goal
          decreases !done, Size(levels[k..]) - Value(levels[k..])
        {
          ghost var cur := levels[k..];
          ValueBelowSize(cur);
          StepFrom(k);
          assert levels[k..][1..] == levels[k + 1..];
          done := levels[k].it == levels[k].last || !Repeated(levels[k + 1..], levels[k].it);
          assert done == Halts(levels[k..]);
        }
        assert levels == levels[..k] + levels[k..];
      }
    }

    /** The body of that loop: advance the nested levels and, on carry,
        bump level k and reset the nested levels unless level k is done. */
    method StepFrom(k: nat)
      requires k + 1 < |levels| && AllBelow(levels[k..])
      modifies this
      ensures |levels| == |old(levels)|
      ensures levels[..k] == old(levels)[..k] && levels[k..] == Step(old(levels)[k..])
      decreases |levels| - k, 0
    {
      ghost var ls := levels;
      StepFromCases(ls, k);
      AdvanceFrom(k + 1);
      if AtLast(levels[k + 1..]) {
        var it := levels[k].it + 1;
        levels := levels[k := levels[k].(it := it)];
        if it != levels[k].last {
          levels := levels[..k + 1] + Reset(levels[k + 1..]);
        }
      }
    }
  }

  /** The three ways one pass over the levels from k on can go, with the
      levels before k left alone: the state after advancing the levels from
      k + 1 on, that state with level k bumped, and that one with the levels
      from k + 1 on reset. */
  lemma StepFromCases(ls: seq<Level>, k: nat)
    requires k + 1 < |ls| && AllBelow(ls[k..])
    ensures AllBelow(ls[k + 1..])
    ensures var sub := Next(ls[k + 1..]); var h := ls[k].(it := ls[k].it + 1);
      var a := ls[..k + 1] + sub; var c := a[k := h]; var d := c[..k + 1] + Reset(c[k + 1..]);
      |a| == |ls| && a[k] == ls[k] && a[k + 1..] == sub &&
      (!AtLast(sub) ==> a[..k] == ls[..k] && a[k..] == Step(ls[k..])) &&
      (AtLast(sub) && h.it == h.last ==> c[..k] == ls[..k] && c[k..] == Step(ls[k..])) &&
      (AtLast(sub) && h.it != h.last ==> |d| == |ls| && d[..k] == ls[..k] && d[k..] == Step(ls[k..]))
  {
    StepAt(ls, k);
    var sub := Next(ls[k + 1..]);
    var h := ls[k].(it := ls[k].it + 1);
    var pre := ls[..k];
    Split(ls, k);
    Splice(pre, ls[k], sub, ls[k]);
    Parts(pre, [ls[k]] + sub);
    Splice(pre, ls[k], sub, h);
    Parts(pre, [h] + sub);
    Reattach(pre, h, sub, Reset(sub));
    Parts(pre, [h] + Reset(sub));
  }

  /** One pass over the levels from k on, in terms of the levels from k + 1 on. */
  lemma StepAt(ls: seq<Level>, k: nat)
    requires k + 1 < |ls| && AllBelow(ls[k..])
    ensures AllBelow(ls[k + 1..])
    ensures var sub := Next(ls[k + 1..]); var h := ls[k].(it := ls[k].it + 1);
      Step(ls[k..]) == if !AtLast(sub) then [ls[k]] + sub
        else if h.it == h.last then [h] + sub else [h] + Reset(sub)
  {
    assert ls[k..][1..] == ls[k + 1..];
    assert forall i :: k + 1 <= i < |ls| ==> ls[i] == ls[k..][i - k];
  }

  /** `permutations<N>(iterable)`: N copies of one input fed to the nested
      engine; N must be positive. */
  method Range<T>(src: seq<T>, n: nat) returns (view: RangeView<PermutationsIterator<T>>)
    requires n > 0
    ensures fresh(view.first) && fresh(view.last) && view.first != view.last
    ensures view.first.Valid() && view.first.src == src && view.first.levels == BeginState(|src|, n)
    ensures view.last.Valid() && view.last.src == src && view.last.levels == EndState(|src|, n)
  {
    var first := new PermutationsIterator.Begin(src, n);
    var last := new PermutationsIterator.End(src, n);
    view := RangeView(first, last);
  }

  /** `permutations<N>(iterable)` corrected: from the first arrangement to
      the same end. */
  method ArrangementsRange<T>(src: seq<T>, n: nat) returns (view: RangeView<PermutationsIterator<T>>)
    requires n > 0
    ensures fresh(view.first) && fresh(view.last) && view.first != view.last
    ensures view.first.Valid() && view.first.src == src && view.first.levels == DistinctBeginState(|src|, n)
    ensures view.last.Valid() && view.last.src == src && view.last.levels == EndState(|src|, n)
  {
    var first := new PermutationsIterator.BeginArrangement(src, n);
    var last := new PermutationsIterator.End(src, n);
    view := RangeView(first, last);
  }
}
