/** `zip_longest`: tuples of the i-th elements of every input, an exhausted
    input contributing its default value, until the longest input is
    exhausted. One level per input; only levels short of their last move. */
module ZipLongest {
  import opened Levels
  import opened RangeViews

  /** `operator++` of every level: a level moves only while it is short of
      its last. */
  function Step(ls: seq<Level>): (r: seq<Level>)
    ensures SameLasts(r, ls)
  {
    seq(|ls|, i requires 0 <= i < |ls| => if ls[i].it != ls[i].last then ls[i].(it := ls[i].it + 1) else ls[i])
  }

  /** The state after `k` advances. */
  function Run(ls: seq<Level>, k: nat): (r: seq<Level>)
    ensures SameLasts(r, ls)
  {
    if k == 0 then ls else Step(Run(ls, k - 1))
  }

  /** The begin state over inputs of lengths `lens`. */
  function BeginState(lens: seq<nat>): (r: seq<Level>)
    ensures |r| == |lens| && forall i :: 0 <= i < |r| ==> r[i] == Level(0, lens[i])
  {
    seq(|lens|, i requires 0 <= i < |lens| => Level(0, lens[i]))
  }

  /** The longest length among the inputs. */
  function Max(lens: seq<nat>): (m: nat)
    requires lens != []
    ensures (forall i :: 0 <= i < |lens| ==> lens[i] <= m) && exists i :: 0 <= i < |lens| && lens[i] == m
  {
    if |lens| == 1 then lens[0]
    else
      var rest := Max(lens[1..]);
      assert forall i :: 0 < i < |lens| ==> lens[i] == lens[1..][i - 1];
      if lens[0] >= rest then lens[0] else rest
  }

  /** A guarded advance never passes a level's last, and a level at its
      last stays there. */
  lemma StepWithinLast(ls: seq<Level>)
    requires WithinLast(ls)
    ensures WithinLast(Step(ls))
    ensures forall i :: 0 <= i < |ls| && ls[i].it == ls[i].last ==> Step(ls)[i] == ls[i]
  {
  }

  /** After k advances from begin, input i is at min(k, its length). */
  lemma {:induction false} RunFromBegin(lens: seq<nat>, k: nat)
    ensures forall i :: 0 <= i < |lens| ==>
      Run(BeginState(lens), k)[i] == Level(if k <= lens[i] then k else lens[i], lens[i])
  {
    if k > 0 {
      RunFromBegin(lens, k - 1);
    }
  }

  /** Counting: the begin cursor equals the end cursor (every input at its
      last) exactly from the longest length of advances on; lengths 5, 3, 7
      give 7 tuples. */
  lemma ZipLongestCount(lens: seq<nat>, k: nat)
    requires lens != []
    ensures AtLast(Run(BeginState(lens), k)) <==> k >= Max(lens)
  {
    RunFromBegin(lens, k);
    if AtLast(Run(BeginState(lens), k)) {
      var i :| 0 <= i < |lens| && lens[i] == Max(lens);
      assert Run(BeginState(lens), k)[i].it == lens[i];
    }
  }

  /** Inputs of lengths 5, 3 and 7 give 7 tuples: begin equals end after
      7 advances and not before. */
  lemma FiveThreeSeven(lens: seq<nat>, k: nat)
    requires lens == [5, 3, 7]
    ensures AtLast(Run(BeginState(lens), k)) <==> k >= 7
  {
    assert lens[1..] == [3, 7] && lens[1..][1..] == [7];
    assert Max(lens) == 7;
    ZipLongestCount(lens, k);
  }

  /** The cursor over the inputs of one `zip_longest(...)` call; `fill` is
      the default value an exhausted input contributes. */
  class ZipLongestIterator<T> {
    const srcs: seq<seq<T>>
    const fill: T
    var levels: seq<Level>

    ghost predicate Valid()
      reads this
    {
      levels != [] && |levels| == |srcs| && WithinLast(levels) &&
      forall i :: 0 <= i < |levels| ==> levels[i].last == |srcs[i]|
    }

    /** `zip_longest_iterator(first, last, rest...)`. */
    constructor (srcs: seq<seq<T>>, fill: T, its: seq<nat>)
      requires srcs != [] && |its| == |srcs| && forall i :: 0 <= i < |its| ==> its[i] <= |srcs[i]|
      ensures Valid() && this.srcs == srcs && this.fill == fill && Cursors(levels) == its
    {
      this.srcs := srcs;
      this.fill := fill;
      levels := seq(|its|, i requires 0 <= i < |its| && |its| == |srcs| => Level(its[i], |srcs[i]|));
    }

    /** `operator*`: each input's current element, or `fill` once that input
        is exhausted. */
    function Deref(): (r: seq<T>)
      reads this
      requires Valid()
      ensures |r| == |srcs|
      ensures forall i :: 0 <= i < |r| ==> r[i] == if levels[i].it < |srcs[i]| then srcs[i][levels[i].it] else fill
    {
      seq(|levels|, i reads this requires 0 <= i < |levels| && Valid() =>
        if levels[i].it != levels[i].last then srcs[i][levels[i].it] else fill)
    }

    /** `operator==`: every input's cursors match. */
    predicate Equals(other: ZipLongestIterator<T>)
      reads this, other
      ensures |levels| == |other.levels| ==>
        (Equals(other) <==> forall i :: 0 <= i < |levels| ==> levels[i].it == other.levels[i].it)
      ensures SameLasts(levels, other.levels) && AtLast(other.levels) ==> (Equals(other) <==> AtLast(levels))
    {
      CursorsEqual(levels, other.levels);
      Cursors(levels) == Cursors(other.levels)
    }

    /** `operator++`: each level in turn moves unless it is at its last. */
    method Advance()
      requires Valid()
      modifies this
      ensures Valid() && levels == Step(old(levels))
    {
      var k := 0;
      ghost var ls := levels;
      while k < |levels|
        invariant k <= |levels| == |ls| && SameLasts(levels, ls)
        invariant forall i :: 0 <= i < |levels| ==> levels[i] == if i < k then Step(ls)[i] else ls[i]
      {
        if levels[k].it != levels[k].last {
          levels := levels[k := levels[k].(it := levels[k].it + 1)];
        }
        k := k + 1;
      }
      StepWithinLast(ls);
    }
  }

  /** `zip_longest(iterables...)`: begin has every input at first, end every
      input at last. */
  method Range<T>(srcs: seq<seq<T>>, fill: T) returns (view: RangeView<ZipLongestIterator<T>>)
    requires srcs != []
    ensures fresh(view.first) && fresh(view.last)
    ensures view.first.Valid() && view.first.srcs == srcs && view.first.levels == BeginState(Lengths(srcs))
    ensures view.last.Valid() && view.last.srcs == srcs && AtLast(view.last.levels)
  {
    var first := new ZipLongestIterator(srcs, fill, seq(|srcs|, _ => 0));
    var last := new ZipLongestIterator(srcs, fill, Lengths(srcs));
    view := RangeView(first, last);
  }

}
