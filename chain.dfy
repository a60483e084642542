/** `chain`: the elements of the first input, then of the next, and so on.
    The cursor is a nest of one level per input; only the first input not
    yet at its last ever moves. */
module Chain {
  import opened Levels
  import opened RangeViews

  /** The nest has one level per input, each level's last being the length
      of its input. */
  predicate Fits<T>(srcs: seq<seq<T>>, ls: seq<Level>)
  {
    |srcs| == |ls| && forall i :: 0 <= i < |ls| ==> ls[i].last == |srcs[i]|
  }

  /** No cursor is past its last, and a level only moves once every level
      before it has reached its last. */
  predicate Chained(ls: seq<Level>)
  {
    WithinLast(ls) && forall i, j :: 0 <= i < j < |ls| && ls[j].it > 0 ==> ls[i].it == ls[i].last
  }

  /** The position in the concatenated output. */
  function Pos(ls: seq<Level>): nat
  {
    if ls == [] then 0 else ls[0].it + Pos(ls[1..])
  }

  /** The length of the concatenated output. */
  function Total(ls: seq<Level>): nat
  {
    if ls == [] then 0 else ls[0].last + Total(ls[1..])
  }

  /** The inputs one after another. */
  function Flat<T>(srcs: seq<seq<T>>): seq<T>
  {
    if srcs == [] then [] else srcs[0] + Flat(srcs[1..])
  }

  /** `operator++`: move the first level not at its last; the innermost
      level moves unconditionally. */
  function Next(ls: seq<Level>): (r: seq<Level>)
    requires ls != []
    ensures |r| == |ls|
  {
    if |ls| == 1 || ls[0].it != ls[0].last then [ls[0].(it := ls[0].it + 1)] + ls[1..]
    else [ls[0]] + Next(ls[1..])
  }

  lemma {:induction false} FlatLength<T>(srcs: seq<seq<T>>, ls: seq<Level>)
    requires Fits(srcs, ls)
    ensures |Flat(srcs)| == Total(ls)
    decreases |ls|
  {
    if ls != [] {
      FlatLength(srcs[1..], ls[1..]);
    }
  }

  /** The output position never passes the output length, and reaches it
      exactly when every cursor is at its last: the end cursor. */
  lemma {:induction false} PosAtLast(ls: seq<Level>)
    requires WithinLast(ls)
    ensures Pos(ls) <= Total(ls)
    ensures Pos(ls) == Total(ls) <==> AtLast(ls)
    decreases |ls|
  {
    if ls != [] {
      var t := ls[1..];
      assert forall i :: 0 <= i < |t| ==> t[i] == ls[i + 1];
      PosAtLast(t);
      if AtLast(t) && ls[0].it == ls[0].last {
        AtLastCons(ls[0], t);
        assert ls == [ls[0]] + t;
      }
    }
  }

  lemma ChainedTail(ls: seq<Level>)
    requires ls != [] && Chained(ls)
    ensures Chained(ls[1..])
    ensures ls[0].it < ls[0].last ==> forall j :: 0 <= j < |ls| - 1 ==> ls[1..][j].it == 0
  {
    var t := ls[1..];
    assert forall i :: 0 <= i < |t| ==> t[i] == ls[i + 1];
  }

  lemma {:induction false} ZeroPos(ls: seq<Level>)
    requires forall j :: 0 <= j < |ls| ==> ls[j].it == 0
    ensures Pos(ls) == 0
    decreases |ls|
  {
    if ls != [] {
      ZeroPos(ls[1..]);
    }
  }

  /** An advance keeps every level's last. */
  lemma {:induction false} NextSameLasts(ls: seq<Level>)
    requires ls != []
    ensures SameLasts(Next(ls), ls)
    decreases |ls|
  {
    if |ls| > 1 && ls[0].it == ls[0].last {
      NextSameLasts(ls[1..]);
      var sub := Next(ls[1..]);
      assert forall i :: 0 < i < |ls| ==> Next(ls)[i] == sub[i - 1] && ls[i] == ls[1..][i - 1];
    }
  }

  /** From any state short of the end an advance moves the output position
      by exactly one. */
  lemma {:induction false} NextPos(ls: seq<Level>)
    requires ls != [] && Chained(ls) && !AtLast(ls)
    ensures Pos(Next(ls)) == Pos(ls) + 1
    decreases |ls|
  {
    var t := ls[1..];
    var r := Next(ls);
    if |ls| > 1 && ls[0].it == ls[0].last {
      ChainedTail(ls);
      var i :| 0 <= i < |ls| && ls[i].it != ls[i].last;
      assert t[i - 1] == ls[i];
      NextPos(t);
      assert r[1..] == Next(t);
    } else {
      assert r[1..] == t;
    }
  }

  /** From any state short of the end an advance keeps the nest chained. */
  lemma {:induction false} NextChained(ls: seq<Level>)
    requires ls != [] && Chained(ls) && !AtLast(ls)
    ensures Chained(Next(ls))
    decreases |ls|
  {
    var t := ls[1..];
    var r := Next(ls);
    if |ls| == 1 {
      assert r == [ls[0].(it := ls[0].it + 1)];
    } else if ls[0].it != ls[0].last {
      assert forall j :: 0 < j < |r| ==> r[j] == t[j - 1] == ls[j];
    } else {
      ChainedTail(ls);
      var i :| 0 <= i < |ls| && ls[i].it != ls[i].last;
      assert t[i - 1] == ls[i];
      NextChained(t);
      var sub := Next(t);
      assert forall j :: 0 < j < |r| ==> r[j] == sub[j - 1];
      forall i, j | 0 <= i < j < |r| && r[j].it > 0
        ensures r[i].it == r[i].last
      {
        if i > 0 {
          assert r[i] == sub[i - 1] && r[j] == sub[j - 1];
        }
      }
    }
  }

  /** From any state short of the end an advance keeps the nest chained,
      keeps the lasts, and moves the output position by exactly one. */
  lemma NextAdvancesPos(ls: seq<Level>)
    requires ls != [] && Chained(ls) && !AtLast(ls)
    ensures var r := Next(ls); Chained(r) && SameLasts(r, ls) && Pos(r) == Pos(ls) + 1
  {
    NextSameLasts(ls);
    NextPos(ls);
    NextChained(ls);
  }

  /** The state after `j` advances from a chained state with at least `j`
      elements left: still chained, `j` positions further on. */
  function Run(ls: seq<Level>, j: nat): (r: seq<Level>)
    requires ls != [] && Chained(ls) && Pos(ls) + j <= Total(ls)
    ensures Chained(r) && SameLasts(r, ls) && Pos(r) == Pos(ls) + j
  {
    if j == 0 then ls
    else
      var prev := Run(ls, j - 1);
      TotalDependsOnLasts(prev, ls);
      PosAtLast(prev);
      NextAdvancesPos(prev);
      Next(prev)
  }

  lemma {:induction false} TotalDependsOnLasts(a: seq<Level>, b: seq<Level>)
    requires SameLasts(a, b)
    ensures Total(a) == Total(b)
    decreases |a|
  {
    if a != [] {
      TotalDependsOnLasts(a[1..], b[1..]);
    }
  }

  /** The element a chained cursor short of the end reads is the one at its
      output position in the concatenated inputs. */
  lemma {:induction false} ElementAtPos<T>(srcs: seq<seq<T>>, ls: seq<Level>)
    requires Fits(srcs, ls) && ls != [] && Chained(ls) && !AtLast(ls)
    ensures Pos(ls) < |Flat(srcs)|
    ensures ls[0].it < ls[0].last ==> Flat(srcs)[Pos(ls)] == srcs[0][ls[0].it]
    ensures ls[0].it == ls[0].last ==>
      (|ls| > 1 && !AtLast(ls[1..]) && Flat(srcs)[Pos(ls)] == Flat(srcs[1..])[Pos(ls[1..])])
  {
    FlatLength(srcs, ls);
    PosAtLast(ls);
    ChainedTail(ls);
    var t := ls[1..];
    assert Flat(srcs) == srcs[0] + Flat(srcs[1..]);
    if ls[0].it < ls[0].last {
      ZeroPos(t);
    } else {
      var i :| 0 <= i < |ls| && ls[i].it != ls[i].last;
      assert t[i - 1] == ls[i];
    }
  }

  /** `operator*` on the nest: the element of the first input not at its
      last. */
  function Element<T>(srcs: seq<seq<T>>, ls: seq<Level>): (r: T)
    requires Fits(srcs, ls) && ls != [] && WithinLast(ls) && !AtLast(ls)
    ensures exists i :: 0 <= i < |ls| && ls[i].it < ls[i].last && AtLast(ls[..i]) && r == srcs[i][ls[i].it]
    decreases |ls|
  {
    if ls[0].it != ls[0].last then
      assert AtLast(ls[..0]);
      srcs[0][ls[0].it]
    else
      assert |ls| > 1 && !AtLast(ls[1..]) by {
        var i :| 0 <= i < |ls| && ls[i].it != ls[i].last;
        assert ls[1..][i - 1] == ls[i];
      }
      assert forall i :: 0 <= i < |ls| - 1 ==>
        ls[1..][i] == ls[i + 1] && srcs[1..][i] == srcs[i + 1] && (AtLast(ls[1..][..i]) ==> AtLast(ls[..i + 1]));
      Element(srcs[1..], ls[1..])
  }

  /** The element a chained cursor reads is the one at its output position
      in the concatenated inputs. */
  lemma {:induction false} ElementIsFlat<T>(srcs: seq<seq<T>>, ls: seq<Level>)
    requires Fits(srcs, ls) && ls != [] && Chained(ls) && !AtLast(ls)
    ensures Pos(ls) < |Flat(srcs)| && Element(srcs, ls) == Flat(srcs)[Pos(ls)]
    decreases |ls|
  {
    ElementAtPos(srcs, ls);
    if ls[0].it == ls[0].last {
      ChainedTail(ls);
      ElementIsFlat(srcs[1..], ls[1..]);
    }
  }

  /** The cursor over the inputs of one `chain(...)` call. */
  class ChainIterator<T> {
    const srcs: seq<seq<T>>
    var levels: seq<Level>

    ghost predicate Valid()
      reads this
    {
      levels != [] && Fits(srcs, levels) && Chained(levels)
    }

    /** The begin cursor of `chain`: every input at its first element. */
    constructor Begin(srcs: seq<seq<T>>)
      requires srcs != []
      ensures Valid() && this.srcs == srcs && Pos(levels) == 0
      ensures forall i :: 0 <= i < |levels| ==> levels[i] == Level(0, |srcs[i]|)
    {
      this.srcs := srcs;
      levels := seq(|srcs|, i requires 0 <= i < |srcs| => Level(0, |srcs[i]|));
      new;
      ZeroPos(levels);
    }

    /** The end cursor of `chain`: every input at its last. */
    constructor End(srcs: seq<seq<T>>)
      requires srcs != []
      ensures Valid() && this.srcs == srcs && AtLast(levels)
    {
      this.srcs := srcs;
      levels := seq(|srcs|, i requires 0 <= i < |srcs| => Level(|srcs[i]|, |srcs[i]|));
    }

    /** `operator*`: the element of the first input not at its last. */
    function Deref(): (r: T)
      reads this
      requires Valid() && !AtLast(levels)
      ensures Pos(levels) < |Flat(srcs)| && r == Flat(srcs)[Pos(levels)]
    {
      DerefFrom(0)
    }

    function DerefFrom(k: nat): (r: T)
      reads this
      requires Valid() && k < |levels| && !AtLast(levels[k..])
      ensures Pos(levels[k..]) < |Flat(srcs[k..])| && r == Flat(srcs[k..])[Pos(levels[k..])]
      decreases |levels| - k
    {
      var ls := levels[k..];
      assert Fits(srcs[k..], ls) && Chained(ls);
      ElementAtPos(srcs[k..], ls);
      if levels[k].it != levels[k].last then
        srcs[k][levels[k].it]
      else
        assert ls[1..] == levels[k + 1..] && srcs[k..][1..] == srcs[k + 1..];
        DerefFrom(k + 1)
    }

    /** `operator==`: the cursors at every level. */
    predicate Equals(other: ChainIterator<T>)
      reads this, other
      ensures |levels| == |other.levels| ==>
        (Equals(other) <==> forall i :: 0 <= i < |levels| ==> levels[i].it == other.levels[i].it)
      ensures SameLasts(levels, other.levels) && AtLast(other.levels) ==> (Equals(other) <==> AtLast(levels))
    {
      CursorsEqual(levels, other.levels);
      Cursors(levels) == Cursors(other.levels)
    }

    /** `operator++`, from any state short of the end. */
    method Advance()
      requires Valid() && !AtLast(levels)
      modifies this
      ensures Valid() && levels == Next(old(levels))
      ensures Pos(levels) == Pos(old(levels)) + 1
    {
      NextAdvancesPos(levels);
      AdvanceFrom(0);
    }

    /** `operator++` of the sub-chain from level k: move level k if it is
        not at its last (or is the innermost), otherwise pass the advance
        on. */
    method AdvanceFrom(k: nat)
      requires k < |levels|
      modifies this
      ensures levels == old(levels)[..k] + Next(old(levels)[k..])
      decreases |levels| - k
    {
      ghost var ls := levels;
      assert ls[k..][1..] == ls[k + 1..];
      if k == |levels| - 1 || levels[k].it != levels[k].last {
        levels := levels[k := levels[k].(it := levels[k].it + 1)];
        assert levels == ls[..k] + ([ls[k].(it := ls[k].it + 1)] + ls[k + 1..]);
      } else {
        AdvanceFrom(k + 1);
        assert levels == ls[..k] + ([ls[k]] + Next(ls[k + 1..]));
      }
    }
  }

  /** `chain(iterable, iterables...)`: at least one input. */
  method Range<T>(srcs: seq<seq<T>>) returns (view: RangeView<ChainIterator<T>>)
    requires srcs != []
    ensures fresh(view.first) && fresh(view.last)
    ensures view.first.Valid() && view.first.srcs == srcs && Pos(view.first.levels) == 0
    ensures view.last.Valid() && view.last.srcs == srcs && AtLast(view.last.levels)
  {
    var first := new ChainIterator.Begin(srcs);
    var last := new ChainIterator.End(srcs);
    view := RangeView(first, last);
  }

  /** The chained output is the concatenation of the inputs: from begin,
      the state after `j` advances reads element `j` of the concatenation
      and is the end exactly when `j` is the total length, so empty inputs
      are passed over and the range has the sum of the lengths. */
  lemma ChainIsConcatenation<T>(srcs: seq<seq<T>>, begin: seq<Level>, j: nat)
    requires begin != [] && Fits(srcs, begin) && Chained(begin) && Pos(begin) == 0
    requires j <= |Flat(srcs)|
    ensures Total(begin) == |Flat(srcs)|
    ensures AtLast(Run(begin, j)) <==> j == |Flat(srcs)|
    ensures j < |Flat(srcs)| ==> Fits(srcs, Run(begin, j)) && !AtLast(Run(begin, j))
    ensures j < |Flat(srcs)| ==> Element(srcs, Run(begin, j)) == Flat(srcs)[j]
  {
    FlatLength(srcs, begin);
    var r := Run(begin, j);
    TotalDependsOnLasts(r, begin);
    PosAtLast(r);
    if j < |Flat(srcs)| {
      ElementIsFlat(srcs, r);
    }
  }
}
