/** `zip`: tuples of the i-th elements of every input, stopping at the
    shortest input. One cursor per input, all moved in lockstep. */
module Zip {
  import opened RangeViews

  /** `operator==` of the nested zip cursor: the first cursors match, or the
      nested cursors do; a one-input zip compares its only cursor. */
  predicate AnyMatch(a: seq<nat>, b: seq<nat>)
    requires |a| == |b|
    ensures AnyMatch(a, b) <==> exists i :: 0 <= i < |a| && a[i] == b[i]
    decreases |a|
  {
    if a == [] then false
    else if a[0] == b[0] then true
    else if |a| == 1 then false
    else
      assert forall i :: 1 <= i < |a| ==> a[i] == a[1..][i - 1] && b[i] == b[1..][i - 1];
      AnyMatch(a[1..], b[1..])
  }

  /** The shortest length among the inputs. */
  function Min(lens: seq<nat>): (m: nat)
    requires lens != []
    ensures (forall i :: 0 <= i < |lens| ==> m <= lens[i]) && exists i :: 0 <= i < |lens| && lens[i] == m
  {
    if |lens| == 1 then lens[0]
    else
      var rest := Min(lens[1..]);
      assert forall i :: 0 < i < |lens| ==> lens[i] == lens[1..][i - 1];
      if lens[0] <= rest then lens[0] else rest
  }

  /** Every one of n cursors at position k: the state after k advances from
      begin. */
  function Lockstep(n: nat, k: nat): (r: seq<nat>)
    ensures |r| == n && forall i :: 0 <= i < n ==> r[i] == k
  {
    seq(n, _ => k)
  }

  /** Counting: the begin cursor, moved in lockstep, equals the end cursor
      (every input at its length) first after exactly the shortest length of
      advances; before that, every cursor can be dereferenced. */
  lemma ZipStopsAtShortest(lens: seq<nat>, k: nat)
    requires lens != [] && k <= Min(lens)
    ensures AnyMatch(Lockstep(|lens|, k), lens) <==> k == Min(lens)
    ensures k < Min(lens) ==> forall i :: 0 <= i < |lens| ==> Lockstep(|lens|, k)[i] < lens[i]
  {
  }

  /** The cursor over the inputs of one `zip(...)` call. */
  class ZipIterator<T> {
    const srcs: seq<seq<T>>
    var its: seq<nat>

    ghost predicate Valid()
      reads this
    {
      its != [] && |its| == |srcs|
    }

    /** `zip_iterator(first, rest...)`: one cursor per input. */
    constructor (srcs: seq<seq<T>>, its: seq<nat>)
      requires its != [] && |its| == |srcs|
      ensures Valid() && this.srcs == srcs && this.its == its
    {
      this.srcs := srcs;
      this.its := its;
    }

    /** `operator*`: the current elements, in argument order. */
    function Deref(): (r: seq<T>)
      reads this
      requires Valid() && forall i :: 0 <= i < |its| ==> its[i] < |srcs[i]|
      ensures |r| == |srcs| && forall i :: 0 <= i < |r| ==> r[i] == srcs[i][its[i]]
    {
      seq(|its|, i reads this requires 0 <= i < |its| && Valid() && forall i :: 0 <= i < |its| ==> its[i] < |srcs[i]| => srcs[i][its[i]])
    }

    /** `operator==`: some input's cursors match. */
    predicate Equals(other: ZipIterator<T>)
      reads this, other
      requires |its| == |other.its|
      ensures Equals(other) <==> exists i :: 0 <= i < |its| && its[i] == other.its[i]
    {
      AnyMatch(its, other.its)
    }

    /** `operator++`: every cursor moves one step, level by level. */
    method Advance()
      requires Valid()
      modifies this
      ensures Valid() && |its| == |old(its)|
      ensures forall i :: 0 <= i < |its| ==> its[i] == old(its)[i] + 1
    {
      var k := 0;
      while k < |its|
        invariant k <= |its| == |old(its)|
        invariant forall i :: 0 <= i < |its| ==> its[i] == old(its)[i] + (if i < k then 1 else 0)
      {
        its := its[k := its[k] + 1];
        k := k + 1;
      }
    }
  }

  /** `zip(iterables...)`: begin at every input's first element, end at
      every input's last. */
  method Range<T>(srcs: seq<seq<T>>) returns (view: RangeView<ZipIterator<T>>)
    requires srcs != []
    ensures fresh(view.first) && fresh(view.last)
    ensures view.first.Valid() && view.first.srcs == srcs && view.first.its == Lockstep(|srcs|, 0)
    ensures view.last.Valid() && view.last.srcs == srcs
    ensures forall i :: 0 <= i < |srcs| ==> view.last.its[i] == |srcs[i]|
  {
    var first := new ZipIterator(srcs, Lockstep(|srcs|, 0));
    var last := new ZipIterator(srcs, seq(|srcs|, i requires 0 <= i < |srcs| => |srcs[i]|));
    view := RangeView(first, last);
  }
}
