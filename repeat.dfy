/** `repeat`: one value over and over, without end or a given number of
    times. */
module Repeat {
  import opened RangeViews

  /** The cursor of `repeat(value)`: nothing ever changes. */
  class RepeatInfIterator<V> {
    const value: V

    constructor (value: V)
      ensures this.value == value
    {
      this.value := value;
    }

    /** `operator*`: the value. */
    function Deref(): (r: V)
      ensures r == value
    {
      value
    }

    /** `operator++`: no effect. */
    method Advance()
      ensures unchanged(this)
    {
    }

    /** `operator==`: never; `operator!=`: always. */
    predicate Equals(other: RepeatInfIterator<V>)
      ensures !Equals(other)
    {
      false
    }

    predicate NotEquals(other: RepeatInfIterator<V>)
      ensures NotEquals(other) != Equals(other)
    {
      true
    }
  }

  /** The cursor of `repeat(value, times)`: a counter compared against the
      end cursor's. */
  class RepeatIterator<V> {
    const value: V
    var times: int

    constructor (value: V, times: int)
      ensures this.value == value && this.times == times
    {
      this.value := value;
      this.times := times;
    }

    /** `operator*`: the value, whatever the counter. */
    function Deref(): (r: V)
      ensures r == value
    {
      value
    }

    /** `operator++`: count one more. */
    method Advance()
      modifies this
      ensures times == old(times) + 1
    {
      times := times + 1;
    }

    /** `operator==`: the counters match. */
    predicate Equals(other: RepeatIterator<V>)
      reads this, other
      ensures Equals(other) <==> times == other.times
    {
      times == other.times
    }
  }

  /** A range-for loop over `repeat(value, n)` for n >= 0: the value is
      emitted exactly n times. */
  method Emitted<V>(value: V, n: int) returns (out: seq<V>)
    requires n >= 0
    ensures |out| == n && forall i :: 0 <= i < n ==> out[i] == value
  {
    var view := Range(value, n);
    var it := view.first;
    out := [];
    while !it.Equals(view.last)
      invariant it.times == |out| <= n && view.last.times == n && it.value == value
      invariant forall i :: 0 <= i < |out| ==> out[i] == value
      decreases n - it.times
    {
      out := out + [it.Deref()];
      it.Advance();
    }
  }

  /** For n < 0 the range never ends: after any number k of advances the
      begin counter is k and still differs from the end counter n. */
  method NegativeNeverEnds<V>(value: V, n: int, k: nat) returns (view: RangeView<RepeatIterator<V>>)
    requires n < 0
    ensures view.first.times == k && view.last.times == n
    ensures !view.first.Equals(view.last)
  {
    view := Range(value, n);
    var i := 0;
    while i < k
      invariant i <= k && view.first.times == i && view.last.times == n
    {
      view.first.Advance();
      i := i + 1;
    }
  }

  /** `repeat(value)`. */
  method RangeInf<V>(value: V) returns (view: RangeView<RepeatInfIterator<V>>)
    ensures fresh(view.first) && fresh(view.last)
    ensures view.first.value == value && view.last.value == value
    ensures !view.first.Equals(view.last)
  {
    var first := new RepeatInfIterator(value);
    var last := new RepeatInfIterator(value);
    view := RangeView(first, last);
  }

  /** `repeat(value, times)`: begin counts from 0, end at `times`. */
  method Range<V>(value: V, times: int) returns (view: RangeView<RepeatIterator<V>>)
    ensures fresh(view.first) && fresh(view.last)
    ensures view.first.value == value && view.first.times == 0
    ensures view.last.value == value && view.last.times == times
    ensures view.first != view.last
  {
    var first := new RepeatIterator(value, 0);
    var last := new RepeatIterator(value, times);
    view := RangeView(first, last);
  }
}
