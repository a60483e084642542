/** `count`: start, start + step, start + 2 step, ... without end. */
module Count {
  import opened RangeViews

  /** The value after `k` advances, one `+= step` at a time. */
  function ValueAt(start: int, step: int, k: nat): int
  {
    if k == 0 then start else ValueAt(start, step, k - 1) + step
  }

  /** After k advances the value is start + k step; count(1, 2) gives
      1 3 5 7 9. */
  lemma {:induction false} ValueAtIsLinear(start: int, step: int, k: nat)
    ensures ValueAt(start, step, k) == start + k * step
  {
    if k > 0 {
      ValueAtIsLinear(start, step, k - 1);
    }
  }

  /** The cursor of one `count(start, step)` call. */
  class CountIterator {
    var value: int
    const step: int

    /** `count_iterator(start, step)`. */
    constructor (start: int, step: int)
      ensures value == start && this.step == step
    {
      value := start;
      this.step := step;
    }

    /** `operator*`: the current value. */
    function Deref(): (r: int)
      reads this
      ensures r == value
    {
      value
    }

    /** `operator++`: add the step. */
    method Advance()
      modifies this
      ensures value == old(value) + step
    {
      value := value + step;
    }

    /** `operator==`: never. */
    predicate Equals(other: CountIterator)
      ensures !Equals(other)
    {
      false
    }
  }

  /** `count(start, step)`: begin and end are built alike and never equal. */
  method Range(start: int, step: int) returns (view: RangeView<CountIterator>)
    ensures fresh(view.first) && fresh(view.last)
    ensures view.first.value == start && view.first.step == step
    ensures view.last.value == start && view.last.step == step
    ensures !view.first.Equals(view.last)
  {
    var first := new CountIterator(start, step);
    var last := new CountIterator(start, step);
    view := RangeView(first, last);
  }
}
