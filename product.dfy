/** Cartesian product of several inputs, as nested loops: the last-listed
    input varies fastest. A product cursor is a chain of levels, one per
    input, outermost first; input i is a sequence of length `last` and a
    cursor is an index into it. */
module Product {
  import opened Levels
  import opened RangeViews

  /** The levels of `product_impl::begin()`: every cursor at its first position. */
  function BeginState(lens: seq<nat>): (r: seq<Level>)
    ensures |r| == |lens| && forall i :: 0 <= i < |r| ==> r[i] == Level(0, lens[i])
    ensures AllBelow(r) <==> forall i :: 0 <= i < |lens| ==> lens[i] > 0
  {
    seq(|lens|, i requires 0 <= i < |lens| => Level(0, lens[i]))
  }

  /** The levels of `product_impl::end()`: every cursor at its last position. */
  function EndState(lens: seq<nat>): (r: seq<Level>)
    ensures |r| == |lens| && AtLast(r) && SameLasts(r, BeginState(lens))
  {
    seq(|lens|, i requires 0 <= i < |lens| => Level(lens[i], lens[i]))
  }

  /** One `operator++`: advance the innermost level; when the nested part
      then equals its saved last copy, bump this level, and unless this level
      is now at its own last, put the nested part back to its saved first copy. */
  function Next(ls: seq<Level>): (r: seq<Level>)
    requires ls != []
    ensures SameLasts(r, ls)
  {
    if |ls| == 1 then [ls[0].(it := ls[0].it + 1)]
    else
      var sub := Next(ls[1..]);
      if AtLast(sub) then
        var h := ls[0].(it := ls[0].it + 1);
        if h.it != h.last then [h] + Reset(sub) else [h] + sub
      else [ls[0]] + sub
  }

  /** The state after `k` advances. */
  function Run(ls: seq<Level>, k: nat): (r: seq<Level>)
    requires ls != []
    ensures SameLasts(r, ls)
  {
    if k == 0 then ls else Next(Run(ls, k - 1))
  }

  /** The current elements, one per input, in argument order. */
  function Tuple<T>(srcs: seq<seq<T>>, ls: seq<Level>): (r: seq<T>)
    requires |srcs| == |ls| && AllBelow(ls)
    requires forall i :: 0 <= i < |ls| ==> ls[i].last == |srcs[i]|
    ensures |r| == |ls|
    ensures forall i :: 0 <= i < |r| ==> r[i] == srcs[i][ls[i].it]
  {
    if ls == [] then [] else [srcs[0][ls[0].it]] + Tuple(srcs[1..], ls[1..])
  }

  /** On a dereferenceable state, an advance moves the mixed-radix rank up by
      exactly one, or, from the final tuple, lands on the end state. */
  lemma {:induction false} NextStepsByOne(ls: seq<Level>)
    requires ls != [] && AllBelow(ls)
    ensures Value(ls) + 1 < Size(ls) ==> AllBelow(Next(ls)) && Value(Next(ls)) == Value(ls) + 1
    ensures Value(ls) + 1 >= Size(ls) ==> AtLast(Next(ls))
  {
    ValueBelowSize(ls);
    if |ls| > 1 {
      var t := ls[1..];
      assert AllBelow(t) by {
        assert forall i :: 0 <= i < |t| ==> t[i] == ls[i + 1];
      }
      NextStepsByOne(t);
      ValueBelowSize(t);
      if Value(t) + 1 < Size(t) {
        InnerStep(ls);
      } else if ls[0].it + 1 != ls[0].last {
        CarryStep(ls);
      } else {
        FinalStep(ls);
      }
    }
  }

  /** The nested levels advance without a carry. */
  lemma InnerStep(ls: seq<Level>)
    requires |ls| > 1 && AllBelow(ls)
    requires AllBelow(Next(ls[1..])) && Value(Next(ls[1..])) == Value(ls[1..]) + 1
    ensures Value(ls) + 1 < Size(ls) && AllBelow(Next(ls)) && Value(Next(ls)) == Value(ls) + 1
  {
    var t := ls[1..];
    var sub := Next(t);
    ValueBelowSize(sub);
    SizeDependsOnLasts(sub, t);
    ValueCons(ls[0], t);
    assert ls == [ls[0]] + t;
    assert sub[0].it < sub[0].last;
    assert Next(ls) == [ls[0]] + sub;
    ValueCons(ls[0], sub);
    InnerArithmetic(ls[0].it, ls[0].last, Size(t), Value(t));
  }

  /** The nested levels carry and this level moves on to another position. */
  lemma CarryStep(ls: seq<Level>)
    requires |ls| > 1 && AllBelow(ls) && ls[0].it + 1 != ls[0].last
    requires Value(ls[1..]) + 1 >= Size(ls[1..]) && AtLast(Next(ls[1..])) && Value(ls[1..]) < Size(ls[1..])
    ensures Value(ls) + 1 < Size(ls) && AllBelow(Next(ls)) && Value(Next(ls)) == Value(ls) + 1
  {
    var t := ls[1..];
    var h' := ls[0].(it := ls[0].it + 1);
    assert ls == [ls[0]] + t;
    CarryShape(ls);
    CarryValue(ls[0], t, Next(t));
  }

  /** After a carry this level has moved up one and the nested levels are
      back at their first positions. */
  lemma CarryShape(ls: seq<Level>)
    requires |ls| > 1 && AllBelow(ls) && ls[0].it + 1 != ls[0].last && AtLast(Next(ls[1..]))
    ensures Next(ls) == [ls[0].(it := ls[0].it + 1)] + Reset(Next(ls[1..]))
    ensures AllBelow(Next(ls))
  {
    var t := ls[1..];
    var sub := Next(t);
    ResetShape(sub);
    assert forall i :: 0 < i < |ls| ==> Next(ls)[i] == Reset(sub)[i - 1] && ls[i] == t[i - 1];
  }

  lemma CarryValue(h: Level, t: seq<Level>, sub: seq<Level>)
    requires h.it + 1 < h.last && AllBelow(t) && SameLasts(sub, t) && Value(t) + 1 >= Size(t) && Value(t) < Size(t)
    ensures Value([h] + t) + 1 < Size([h] + t)
    ensures Value([h.(it := h.it + 1)] + Reset(sub)) == Value([h] + t) + 1
  {
    var h' := h.(it := h.it + 1);
    ValueCons(h, t);
    assert forall i :: 0 <= i < |sub| ==> sub[i].last > 0 by {
      assert forall i :: 0 <= i < |sub| ==> sub[i].last == t[i].last;
    }
    ResetValue(sub);
    SizeDependsOnLasts(sub, t);
    ValueCons(h', Reset(sub));
    CarryArithmetic(h.it, h.last, Size(t), Value(t), Value([h] + t), Size([h] + t), Value([h'] + Reset(sub)));
  }

  /** The nested levels carry while this level is on its final position:
      every level ends at its last. */
  lemma FinalStep(ls: seq<Level>)
    requires |ls| > 1 && AllBelow(ls) && ls[0].it + 1 == ls[0].last
    requires Value(ls[1..]) + 1 >= Size(ls[1..]) && AtLast(Next(ls[1..])) && Value(ls[1..]) < Size(ls[1..])
    ensures Value(ls) + 1 >= Size(ls) && AtLast(Next(ls))
  {
    var t := ls[1..];
    var sub := Next(t);
    var h' := ls[0].(it := ls[0].it + 1);
    ValueCons(ls[0], t);
    assert ls == [ls[0]] + t;
    assert Next(ls) == [h'] + sub;
    FinalArithmetic(ls[0].it, ls[0].last, Size(t), Value(t));
    AtLastCons(h', sub);
  }

  lemma CarryArithmetic(h: nat, last: nat, s: nat, v: nat, before: nat, size: nat, after: nat)
    requires v + 1 == s && h + 1 < last
    requires before == h * s + v && size == last * s && after == (h + 1) * s + 0
    ensures after == before + 1 && before + 1 < size
  {
    MulMonotone(h + 2, last, s);
  }

  lemma InnerArithmetic(h: nat, last: nat, s: nat, v: nat)
    requires v + 1 < s && h < last
    ensures h * s + v + 1 < last * s
  {
    MulMonotone(h + 1, last, s);
  }

  lemma FinalArithmetic(h: nat, last: nat, s: nat, v: nat)
    requires v + 1 == s && h + 1 == last
    ensures h * s + v + 1 == last * s
  {
  }

  /** Each advance from a dereferenceable state strictly increases the
      position tuple in lexicographic order: the nested-loop order. */
  lemma {:induction false} NextIsLexGreater(ls: seq<Level>)
    requires ls != [] && AllBelow(ls)
    ensures LexLess(Cursors(ls), Cursors(Next(ls)))
  {
    if |ls| > 1 {
      var t := ls[1..];
      var sub := Next(t);
      if AtLast(sub) {
        assert Cursors(Next(ls))[0] == ls[0].it + 1;
      } else {
        assert AllBelow(t) by {
          assert forall i :: 0 <= i < |t| ==> t[i] == ls[i + 1];
        }
        assert LexLess(Cursors(t), Cursors(sub)) by {
          NextIsLexGreater(t);
        }
        assert Next(ls) == [ls[0]] + sub;
        assert Cursors(ls)[1..] == Cursors(t);
        assert Cursors(Next(ls))[1..] == Cursors(sub);
      }
    }
  }

  /** A begin state over non-empty inputs: every cursor at 0, every last positive. */
  predicate IsBegin(b: seq<Level>)
  {
    b != [] && forall i :: 0 <= i < |b| ==> b[i].it == 0 && b[i].last > 0
  }

  lemma BeginIsBegin(lens: seq<nat>)
    requires lens != [] && forall i :: 0 <= i < |lens| ==> lens[i] > 0
    ensures IsBegin(BeginState(lens))
  {
  }

  /** From the begin state of non-empty inputs, the first `j` advances (for
      `j` below the product of the lengths) visit the tuple of rank `j`. */
  lemma {:induction false} RunRanks(b: seq<Level>, j: nat)
    requires IsBegin(b) && j < Size(b)
    ensures AllBelow(Run(b, j)) && Value(Run(b, j)) == j && Size(Run(b, j)) == Size(b)
  {
    if j == 0 {
      assert b == Reset(b);
      ResetValue(b);
    } else {
      RunRanks(b, j - 1);
      NextStepsByOne(Run(b, j - 1));
      SizeDependsOnLasts(Run(b, j), b);
    }
  }

  /** Counting: with every input non-empty, begin reaches end after exactly
      L0 * L1 * ... * Lk advances, and no earlier state compares equal to end. */
  lemma ProductCount(lens: seq<nat>)
    requires lens != [] && forall i :: 0 <= i < |lens| ==> lens[i] > 0
    ensures Size(BeginState(lens)) == LengthProduct(lens)
    ensures Run(BeginState(lens), LengthProduct(lens)) == EndState(lens)
    ensures forall j :: 0 <= j < LengthProduct(lens) ==> Cursors(Run(BeginState(lens), j)) != Cursors(EndState(lens))
  {
    SizeOfBegin(lens);
    ProductReachesEnd(lens);
    ProductNotEarlier(lens);
  }

  lemma ProductReachesEnd(lens: seq<nat>)
    requires lens != [] && forall i :: 0 <= i < |lens| ==> lens[i] > 0
    ensures Run(BeginState(lens), Size(BeginState(lens))) == EndState(lens)
  {
    var b := BeginState(lens);
    BeginIsBegin(lens);
    var final := FinalRank(b);
    NextStepsByOne(final);
    AtLastIsEnd(lens, Next(final));
  }

  /** The state one advance before the end holds the tuple of highest rank. */
  lemma FinalRank(b: seq<Level>) returns (final: seq<Level>)
    requires IsBegin(b)
    ensures Size(b) > 0 && final == Run(b, Size(b) - 1)
    ensures final != [] && AllBelow(final) && Value(final) + 1 >= Size(final)
  {
    assert Size(b) > 0 by {
      SizePositive(b);
    }
    final := Run(b, Size(b) - 1);
    assert AllBelow(final) && Value(final) + 1 >= Size(final) by {
      RunRanks(b, Size(b) - 1);
      LastRank(Value(final), Size(final), Size(b));
    }
  }

  lemma LastRank(v: nat, size: nat, n: nat)
    requires n > 0 && v == n - 1 && size == n
    ensures v + 1 >= size
  {
  }

  lemma ProductNotEarlier(lens: seq<nat>)
    requires lens != [] && forall i :: 0 <= i < |lens| ==> lens[i] > 0
    ensures forall j :: 0 <= j < Size(BeginState(lens)) ==> Cursors(Run(BeginState(lens), j)) != Cursors(EndState(lens))
  {
    var b := BeginState(lens);
    BeginIsBegin(lens);
    forall j | 0 <= j < Size(b) ensures Cursors(Run(b, j)) != Cursors(EndState(lens)) {
      RunRanks(b, j);
      assert Cursors(Run(b, j))[0] < lens[0];
    }
  }

  lemma AtLastIsEnd(lens: seq<nat>, ls: seq<Level>)
    requires SameLasts(ls, BeginState(lens)) && AtLast(ls)
    ensures ls == EndState(lens)
  {
  }

  /** The product of the input lengths. */
  function LengthProduct(lens: seq<nat>): nat
  {
    if lens == [] then 1 else lens[0] * LengthProduct(lens[1..])
  }

  lemma {:induction false} SizeOfBegin(lens: seq<nat>)
    ensures Size(BeginState(lens)) == LengthProduct(lens)
  {
    if lens != [] {
      assert BeginState(lens)[1..] == BeginState(lens[1..]);
      SizeOfBegin(lens[1..]);
    }
  }

  /** `begin() == end()` holds exactly when every input is empty. */
  lemma BeginIsEndIff(lens: seq<nat>)
    ensures Cursors(BeginState(lens)) == Cursors(EndState(lens)) <==> forall i :: 0 <= i < |lens| ==> lens[i] == 0
  {
    if Cursors(BeginState(lens)) == Cursors(EndState(lens)) {
      forall i | 0 <= i < |lens| ensures lens[i] == 0 {
        assert Cursors(BeginState(lens))[i] == Cursors(EndState(lens))[i];
      }
    }
  }

  /** Some input is empty. */
  predicate AnyEmpty(lens: seq<nat>)
  {
    exists i :: 0 <= i < |lens| && lens[i] == 0
  }

  /** The product of the lengths is zero exactly when some input is empty. */
  lemma {:induction false} LengthProductZero(lens: seq<nat>)
    ensures LengthProduct(lens) == 0 <==> AnyEmpty(lens)
  {
    if lens != [] {
      LengthProductZero(lens[1..]);
      assert AnyEmpty(lens) <==> lens[0] == 0 || AnyEmpty(lens[1..]) by {
        if AnyEmpty(lens[1..]) {
          var i :| 0 <= i < |lens| - 1 && lens[1..][i] == 0;
          assert lens[i + 1] == 0;
        }
        if AnyEmpty(lens) && lens[0] != 0 {
          var i :| 0 <= i < |lens| && lens[i] == 0;
          assert lens[1..][i - 1] == 0;
        }
      }
      ZeroProduct(lens[0], LengthProduct(lens[1..]));
    }
  }

  lemma ZeroProduct(a: nat, b: nat)
    ensures a * b == 0 <==> a == 0 || b == 0
  {
  }

  /** `product_impl::begin()` corrected: a product with an empty input is
      empty, so begin is built at the end state; otherwise it is unchanged. */
  function CorrectedBeginState(lens: seq<nat>): (r: seq<Level>)
    ensures !AnyEmpty(lens) ==> r == BeginState(lens)
    ensures lens != [] ==> (Cursors(r) == Cursors(EndState(lens)) <==> AnyEmpty(lens))
  {
    CursorsEqual(BeginState(lens), EndState(lens));
    if AnyEmpty(lens) then EndState(lens)
    else
      assert lens != [] ==> BeginState(lens)[0].it != EndState(lens)[0].it;
      BeginState(lens)
  }

  /** Counting from the corrected begin: with any inputs at all, begin
      reaches end after exactly L0 * L1 * ... * Lk advances, which is zero
      when some input is empty, and equals it at no earlier state. */
  lemma CorrectedProductCount(lens: seq<nat>)
    requires lens != []
    ensures LengthProduct(lens) == 0 <==> AnyEmpty(lens)
    ensures Run(CorrectedBeginState(lens), LengthProduct(lens)) == EndState(lens)
    ensures forall j :: 0 <= j < LengthProduct(lens) ==>
      Cursors(Run(CorrectedBeginState(lens), j)) != Cursors(EndState(lens))
  {
    LengthProductZero(lens);
    if !AnyEmpty(lens) {
      ProductCount(lens);
    }
  }

  /** A single empty input does not make the product empty: if some but not
      all inputs are empty, begin differs from end, yet begin cannot be
      dereferenced. */
  lemma OneEmptyInputIsNotEmpty(lens: seq<nat>, e: nat, k: nat)
    requires e < |lens| && k < |lens| && lens[e] == 0 && lens[k] > 0
    ensures Cursors(BeginState(lens)) != Cursors(EndState(lens))
    ensures !AllBelow(BeginState(lens))
  {
    BeginIsEndIff(lens);
    assert BeginState(lens)[e].it == 0 == BeginState(lens)[e].last;
  }

  /** With an empty inner input the inner cursor is pushed past its last. */
  lemma EmptyInnerInputOverruns()
    ensures Next(BeginState([1, 0])) == [Level(0, 1), Level(1, 0)]
  {
    var b := BeginState([1, 0]);
    assert b == [Level(0, 1), Level(0, 0)];
    assert Next(b[1..]) == [Level(1, 0)];
    assert [Level(1, 0)][0].it != [Level(1, 0)][0].last;
  }

  /** A product of one input is the plain cursor. */
  lemma SingleInputIsPlainCursor(len: nat, i: nat)
    ensures BeginState([len]) == [Level(0, len)] && EndState([len]) == [Level(len, len)]
    ensures Next([Level(i, len)]) == [Level(i + 1, len)]
  {
  }

  /** The cursor over several inputs, as built by `product_impl`. */
  class ProductIterator<T> {
    const srcs: seq<seq<T>>
    var levels: seq<Level>

    ghost predicate Valid()
      reads this
    {
      |levels| == |srcs| > 0 && forall i :: 0 <= i < |levels| ==> levels[i].last == |srcs[i]|
    }

    /** `product_impl::begin()`. */
    constructor Begin(srcs: seq<seq<T>>)
      requires srcs != []
      ensures Valid() && this.srcs == srcs && levels == BeginState(Lengths(srcs))
    {
      this.srcs := srcs;
      levels := BeginState(Lengths(srcs));
    }

    /** `product_impl::end()`. */
    constructor End(srcs: seq<seq<T>>)
      requires srcs != []
      ensures Valid() && this.srcs == srcs && levels == EndState(Lengths(srcs))
    {
      this.srcs := srcs;
      levels := EndState(Lengths(srcs));
    }

    /** `product_impl::begin()` corrected: at the end state when some input
        is empty. */
    constructor BeginOrEnd(srcs: seq<seq<T>>)
      requires srcs != []
      ensures Valid() && this.srcs == srcs && levels == CorrectedBeginState(Lengths(srcs))
    {
      this.srcs := srcs;
      levels := CorrectedBeginState(Lengths(srcs));
    }

    /** `operator*`: the current elements as a tuple in argument order. */
    function Deref(): (r: seq<T>)
      reads this
      requires Valid() && AllBelow(levels)
      ensures |r| == |srcs| && forall i :: 0 <= i < |r| ==> r[i] == srcs[i][levels[i].it]
    {
      Tuple(srcs, levels)
    }

    /** `operator==`: only the cursors count, at every level. */
    predicate Equals(other: ProductIterator<T>)
      reads this, other
      ensures |levels| == |other.levels| ==>
        (Equals(other) <==> forall i :: 0 <= i < |levels| ==> levels[i].it == other.levels[i].it)
      ensures SameLasts(levels, other.levels) && AtLast(other.levels) ==> (Equals(other) <==> AtLast(levels))
    {
      CursorsEqual(levels, other.levels);
      Cursors(levels) == Cursors(other.levels)
    }

    /** `operator++`. */
    method Advance()
      requires Valid()
      modifies this
      ensures Valid() && levels == Next(old(levels))
    {
      AdvanceFrom(0);
    }

    /** `operator++` of the sub-cursor made of levels k, k+1, ... */
    method AdvanceFrom(k: nat)
      requires k < |levels|
      modifies this
      ensures levels == old(levels)[..k] + Next(old(levels)[k..])
      decreases |levels| - k
    {
      ghost var ls := levels;
      if k == |levels| - 1 {
        assert ls[k..] == [ls[k]];
        levels := levels[k := levels[k].(it := levels[k].it + 1)];
        Splice(ls[..k], ls[k], [], levels[k]);
        assert ls == ls[..k] + [ls[k]] + [];
      } else {
        NextAt(ls, k);
        ghost var sub := Next(ls[k + 1..]);
        AdvanceFrom(k + 1);
        Split(ls, k);
        assert levels == ls[..k] + [ls[k]] + sub;
        Splice(ls[..k], ls[k], sub, ls[k]);
        assert levels[k + 1..] == sub && levels[k] == ls[k];
        if AtLast(levels[k + 1..]) {
          var it := levels[k].it + 1;
          levels := levels[k := levels[k].(it := it)];
          Splice(ls[..k], ls[k], sub, levels[k]);
          if it != levels[k].last {
            levels := levels[..k + 1] + Reset(levels[k + 1..]);
            Reattach(ls[..k], levels[k], sub, Reset(sub));
          }
        }
      }
    }
  }

  /** Advancing the levels from k on, in terms of the levels from k + 1 on. */
  lemma NextAt(ls: seq<Level>, k: nat)
    requires k + 1 < |ls|
    ensures var sub := Next(ls[k + 1..]); var h := ls[k].(it := ls[k].it + 1);
      Next(ls[k..]) == if !AtLast(sub) then [ls[k]] + sub
        else if h.it != h.last then [h] + Reset(sub) else [h] + sub
  {
    assert ls[k..][1..] == ls[k + 1..];
  }


  /** `product(iterables...)`: the view from begin to end. */
  method Range<T>(srcs: seq<seq<T>>) returns (view: RangeView<ProductIterator<T>>)
    requires srcs != []
    ensures fresh(view.first) && fresh(view.last) && view.first != view.last
    ensures view.first.Valid() && view.first.srcs == srcs && view.first.levels == BeginState(Lengths(srcs))
    ensures view.last.Valid() && view.last.srcs == srcs && view.last.levels == EndState(Lengths(srcs))
  {
    var first := new ProductIterator.Begin(srcs);
    var last := new ProductIterator.End(srcs);
    view := RangeView(first, last);
  }

  /** `product(iterables...)` corrected: empty as soon as one input is. */
  method RangeOrEmpty<T>(srcs: seq<seq<T>>) returns (view: RangeView<ProductIterator<T>>)
    requires srcs != []
    ensures fresh(view.first) && fresh(view.last) && view.first != view.last
    ensures view.first.Valid() && view.first.srcs == srcs && view.first.levels == CorrectedBeginState(Lengths(srcs))
    ensures view.last.Valid() && view.last.srcs == srcs && view.last.levels == EndState(Lengths(srcs))
    ensures view.first.Equals(view.last) <==> exists i :: 0 <= i < |srcs| && srcs[i] == []
  {
    var first := new ProductIterator.BeginOrEnd(srcs);
    var last := new ProductIterator.End(srcs);
    view := RangeView(first, last);
    var lens := Lengths(srcs);
    assert AnyEmpty(lens) <==> exists i :: 0 <= i < |srcs| && srcs[i] == [] by {
      assert forall i :: 0 <= i < |srcs| ==> (lens[i] == 0 <==> srcs[i] == []);
    }
  }
}
