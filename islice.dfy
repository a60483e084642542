/** `islice`: every `step`-th element from `start`, with a position counter
    `idx` that stops the cursor when it reaches `stop`. Positions are
    indices into the input; `idx` is the slice index the cursor carries. */
module ISlice {
  import opened Wrappers
  import opened RangeViews
  import Levels

  /** The cursor position and its slice index. */
  datatype Cursor = Cursor(it: nat, idx: int)

  function Min(a: int, b: int): int
  {
    if a <= b then a else b
  }

  /** The number of positions one `operator++` moves over an input of
      length `len`: `step`, unless the cursor reaches the end of the input
      or its index reaches `stop` first. */
  function Moved(len: nat, c: Cursor, stop: int, step: int): (d: nat)
    requires c.it <= len && step > 0
    ensures d <= step && c.it + d <= len
    ensures c.idx <= stop ==> c.idx + d <= stop
    ensures d < step ==> c.it + d == len || c.idx + d == stop
  {
    var room := if c.idx <= stop then stop - c.idx else step;
    Min(step, Min(len - c.it, room))
  }

  /** The loop of `operator++` stops at exactly one count: the one `Moved`
      gives. */
  lemma MovedUnique(len: nat, c: Cursor, stop: int, step: int, d: nat)
    requires c.it <= len && step > 0
    requires d <= step && c.it + d <= len
    requires c.idx <= stop ==> c.idx + d <= stop
    requires d < step ==> c.it + d == len || c.idx + d == stop
    ensures d == Moved(len, c, stop, step)
  {
  }

  /** The cursor after one `operator++`: position and index move together. */
  function Next(len: nat, c: Cursor, stop: int, step: int): (r: Cursor)
    requires c.it <= len && step > 0
    ensures r.it <= len
  {
    var d := Moved(len, c, stop, step);
    Cursor(c.it + d, c.idx + d)
  }

  /** The cursor after `k` advances. */
  function Trace(len: nat, c: Cursor, stop: int, step: int, k: nat): (r: Cursor)
    requires c.it <= len && step > 0
    ensures r.it <= len
  {
    if k == 0 then c else Next(len, Trace(len, c, stop, step, k - 1), stop, step)
  }

  /** Once the index has reached `stop`, advancing changes nothing. */
  lemma StuckAtStop(len: nat, c: Cursor, stop: int, step: int)
    requires c.it <= len && step > 0 && c.idx == stop
    ensures Next(len, c, stop, step) == c
  {
  }

  /** From an index not past `stop`, `k` advances move the cursor by
      `k * step` positions, cut off by the end of the input and by `stop`. */
  lemma {:induction false} TraceDistance(len: nat, c: Cursor, stop: int, step: int, k: nat)
    requires c.it <= len && step > 0 && c.idx <= stop
    ensures var r := Trace(len, c, stop, step, k);
      r.it - c.it == r.idx - c.idx == Min(k * step, Min(len - c.it, stop - c.idx))
  {
    if k > 0 {
      TraceDistance(len, c, stop, step, k - 1);
      assert (k - 1) * step + step == k * step;
    }
  }

  /** The cursor reaches the end of the input on some advance exactly when
      `stop` does not cut the slice short of it. */
  lemma ReachesEnd(len: nat, c: Cursor, stop: int, step: int)
    requires c.it <= len && step > 0 && c.idx <= stop
    ensures (exists k: nat :: Trace(len, c, stop, step, k).it == len) <==> len - c.it <= stop - c.idx
  {
    if len - c.it <= stop - c.idx {
      var k: nat := len - c.it;
      TraceDistance(len, c, stop, step, k);
      MulAtLeast(k, step);
      assert Trace(len, c, stop, step, k).it == len;
    } else {
      forall k: nat
        ensures Trace(len, c, stop, step, k).it < len
      {
        TraceDistance(len, c, stop, step, k);
      }
    }
  }

  lemma MulAtLeast(k: nat, s: nat)
    requires s >= 1
    ensures k * s >= k
  {
  }

  lemma CeilDiv(a: nat, b: nat)
    requires a > 0 && b > 0
    ensures var n := (a + b - 1) / b; n >= 1 && n * b >= a && (n - 1) * b < a
  {
    var n := (a + b - 1) / b;
    var r := (a + b - 1) % b;
    assert a + b - 1 == n * b + r && 0 <= r < b;
    assert (n - 1) * b == n * b - b;
  }

  /** When `stop` does not cut the slice short, the cursor visits the
      positions `c.it + k * step` below the end of the input, one per
      advance, and reaches the end on advance number ceil((len - c.it) / step). */
  lemma SliceVisits(len: nat, c: Cursor, stop: int, step: int)
    requires c.it < len && step > 0 && c.idx <= stop && len - c.it <= stop - c.idx
    ensures var n := (len - c.it + step - 1) / step;
      n >= 1 && Trace(len, c, stop, step, n).it == len &&
      forall k: nat :: k < n ==> Trace(len, c, stop, step, k).it == c.it + k * step < len
  {
    var n := (len - c.it + step - 1) / step;
    CeilDiv(len - c.it, step);
    TraceDistance(len, c, stop, step, n);
    forall k: nat | k < n
      ensures Trace(len, c, stop, step, k).it == c.it + k * step < len
    {
      TraceDistance(len, c, stop, step, k);
      Levels.MulMonotone(k, n - 1, step);
    }
  }

  /** When `stop` falls inside the input, the index reaches `stop` with the
      cursor still short of the end, and every later advance leaves it
      there: the element at that position is emitted again and again and
      the end cursor is never reached. */
  lemma StopCutsShort(len: nat, c: Cursor, stop: int, step: int)
    requires c.it <= len && step > 0 && c.idx <= stop && stop - c.idx < len - c.it
    ensures var k := stop - c.idx;
      Trace(len, c, stop, step, k) == Cursor(c.it + (stop - c.idx), stop) &&
      forall j: nat :: j >= k ==> Trace(len, c, stop, step, j) == Trace(len, c, stop, step, k)
  {
    var k := stop - c.idx;
    TraceDistance(len, c, stop, step, k);
    MulAtLeast(k, step);
    forall j: nat | j >= k
      ensures Trace(len, c, stop, step, j) == Trace(len, c, stop, step, k)
    {
      TraceDistance(len, c, stop, step, j);
      MulAtLeast(j, step);
    }
  }

  /** The slice as intended: the positions `c.it + k * step` that lie below
      both the end of the input and the position of `stop`, after which the
      cursor is at the end. */
  function NextCorrected(len: nat, c: Cursor, stop: int, step: int): (r: Cursor)
    requires c.it <= len && step > 0
    ensures r.it <= len
  {
    if c.it + step < len && c.idx + step < stop then Cursor(c.it + step, c.idx + step)
    else Cursor(len, c.idx + (len - c.it))
  }

  function TraceCorrected(len: nat, c: Cursor, stop: int, step: int, k: nat): (r: Cursor)
    requires c.it <= len && step > 0
    ensures r.it <= len
  {
    if k == 0 then c else NextCorrected(len, TraceCorrected(len, c, stop, step, k - 1), stop, step)
  }

  /** The corrected advance visits `c.it + k * step` while that position and
      its index stay below the end and `stop`, and otherwise is at the end. */
  lemma {:induction false} TraceCorrectedVisits(len: nat, c: Cursor, stop: int, step: int, k: nat)
    requires c.it < len && step > 0 && c.idx < stop
    ensures var r := TraceCorrected(len, c, stop, step, k);
      if k * step < Min(len - c.it, stop - c.idx) then r == Cursor(c.it + k * step, c.idx + k * step)
      else r.it == len
  {
    if k > 0 {
      TraceCorrectedVisits(len, c, stop, step, k - 1);
      assert (k - 1) * step + step == k * step;
      assert (k - 1) * step <= k * step;
    }
  }

  /** The corrected slice always ends: after ceil(m / step) advances, with
      m the distance to the nearer of the input end and `stop`. */
  lemma CorrectedReachesEnd(len: nat, c: Cursor, stop: int, step: int)
    requires c.it < len && step > 0 && c.idx < stop
    ensures var n := (Min(len - c.it, stop - c.idx) + step - 1) / step;
      TraceCorrected(len, c, stop, step, n).it == len &&
      forall k: nat :: k < n ==> TraceCorrected(len, c, stop, step, k).it == c.it + k * step < len
  {
    var m := Min(len - c.it, stop - c.idx);
    var n := (m + step - 1) / step;
    CeilDiv(m, step);
    TraceCorrectedVisits(len, c, stop, step, n);
    forall k: nat | k < n
      ensures TraceCorrected(len, c, stop, step, k).it == c.it + k * step < len
    {
      TraceCorrectedVisits(len, c, stop, step, k);
      Levels.MulMonotone(k, n - 1, step);
    }
  }

  /** The number of elements the skip loop of `islice` passes over. */
  function Skipped(len: nat, start: int): (r: nat)
    ensures r <= len
    ensures start <= 0 ==> r == 0
    ensures 0 <= start <= len ==> r == start
    ensures start >= len ==> r == len
  {
    if start <= 0 then 0 else Min(start, len)
  }

  /** The cursor of `islice` over one input. */
  class ISliceIterator<T> {
    const src: seq<T>
    var it: nat
    var idx: int
    const stop: int
    const step: int

    ghost predicate Valid()
      reads this
    {
      it <= |src| && step > 0
    }

    /** `islice_iterator(first, last, idx, stop, step)`. */
    constructor (src: seq<T>, first: nat, idx: int, stop: int, step: int)
      requires first <= |src| && step > 0
      ensures Valid() && this.src == src && it == first && this.idx == idx
      ensures this.stop == stop && this.step == step
    {
      this.src := src;
      it := first;
      this.idx := idx;
      this.stop := stop;
      this.step := step;
    }

    /** `operator*`: the element at the cursor. */
    function Deref(): (r: T)
      reads this
      requires it < |src|
      ensures r == src[it]
    {
      src[it]
    }

    /** `operator==`: the cursors only, not the indices. */
    predicate Equals(other: ISliceIterator<T>)
      reads this, other
      ensures Equals(other) <==> it == other.it
    {
      it == other.it
    }

    /** `operator++`: up to `step` single steps, stopping at the end of the
        input or when the index reaches `stop`. */
    method Advance()
      requires Valid()
      modifies this
      ensures Valid() && Cursor(it, idx) == Next(|src|, Cursor(old(it), old(idx)), stop, step)
    {
      var k := 0;
      while k != step
        invariant 0 <= k <= step
        invariant old(it) <= it <= |src| && it - old(it) == k && idx - old(idx) == k
        invariant old(idx) <= stop ==> idx <= stop
        decreases step - k
      {
        if it == |src| {
          break;
        }
        if idx == stop {
          break;
        }
        it := it + 1;
        idx := idx + 1;
        k := k + 1;
      }
      MovedUnique(|src|, Cursor(old(it), old(idx)), stop, step, k);
    }
  }

  /** `islice(first, last, start, stop, step)`: a non-positive step is an
      error; `start >= stop` gives the empty range; otherwise the begin
      cursor is moved past up to `start` elements and keeps `start` as its
      index. */
  method Range<T>(src: seq<T>, start: int, stop: int, step: int) returns (r: Result<RangeView<ISliceIterator<T>>>)
    ensures r.Failure? <==> step <= 0
    ensures r.Success? ==> fresh(r.value.first) && fresh(r.value.last)
    ensures r.Success? ==> r.value.first.Valid() && r.value.last.Valid()
    ensures r.Success? ==> r.value.first.src == src && r.value.last.src == src
    ensures r.Success? ==> r.value.first.stop == stop && r.value.first.step == step
    ensures r.Success? ==> r.value.last.it == |src| && r.value.last.idx == start
    ensures r.Success? && start < stop ==> r.value.first.it == Skipped(|src|, start) && r.value.first.idx == start
    ensures r.Success? && stop <= start ==> r.value.first.it == |src|
  {
    if 0 < step {
      var last := new ISliceIterator(src, |src|, start, stop, step);
      if start < stop {
        var first := 0;
        var i := 0;
        while i < start && first != |src|
          invariant first == i && 0 <= first <= |src|
          invariant (start > 0 ==> i <= start) && (start <= 0 ==> i == 0)
          decreases |src| - first
        {
          i := i + 1;
          first := first + 1;
        }
        var begin := new ISliceIterator(src, first, start, stop, step);
        r := Success(RangeView(begin, last));
      } else {
        var begin := new ISliceIterator(src, |src|, start, stop, step);
        r := Success(RangeView(begin, last));
      }
    } else {
      r := Failure("islice() step is non-positive");
    }
  }
}
