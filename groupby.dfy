/** `groupby`: consecutive runs of elements with equal keys. A group is the
    key with the positions `[first, last)` of its run; the key function is a
    pure function supplied by the caller. */
module GroupBy {
  import opened Wrappers
  import opened RangeViews

  /** One emitted group: its key and the positions of its run. */
  datatype Group<K> = Group(key: K, first: nat, last: nat)

  /** The end of the run of elements with key `k` that starts at `i`: the
      first position at or after `i` that is past the input or holds an
      element with another key. */
  function RunEnd<T, K(==)>(s: seq<T>, f: T -> K, k: K, i: nat): (j: nat)
    requires i <= |s|
    ensures i <= j <= |s|
    ensures forall x :: i <= x < j ==> f(s[x]) == k
    ensures j < |s| ==> f(s[j]) != k
    decreases |s| - i
  {
    if i == |s| || f(s[i]) != k then i else RunEnd(s, f, k, i + 1)
  }

  /** The run end is the only position with those properties. */
  lemma {:induction false} RunEndUnique<T, K>(s: seq<T>, f: T -> K, k: K, i: nat, j: nat)
    requires i <= j <= |s|
    requires forall x :: i <= x < j ==> f(s[x]) == k
    requires j < |s| ==> f(s[j]) != k
    ensures j == RunEnd(s, f, k, i)
    decreases j - i
  {
    if i < j {
      RunEndUnique(s, f, k, i + 1, j);
    }
  }

  /** The groups of the input from position `i` on, in order: each starts
      where the previous one ended and takes the key of its first element. */
  function Groups<T, K(==)>(s: seq<T>, f: T -> K, i: nat): (r: seq<Group<K>>)
    requires i <= |s|
    decreases |s| - i
  {
    if i == |s| then []
    else
      var k := f(s[i]);
      var j := RunEnd(s, f, k, i + 1);
      [Group(k, i, j)] + Groups(s, f, j)
  }

  /** The elements of the groups, one run after another. */
  function Concat<T, K>(s: seq<T>, gs: seq<Group<K>>): seq<T>
  {
    if gs == [] then []
    else if gs[0].first <= gs[0].last <= |s| then s[gs[0].first..gs[0].last] + Concat(s, gs[1..])
    else Concat(s, gs[1..])
  }

  /** Concatenating the groups gives back the input. */
  lemma {:induction false} GroupsConcat<T, K>(s: seq<T>, f: T -> K, i: nat)
    requires i <= |s|
    ensures Concat(s, Groups(s, f, i)) == s[i..]
    decreases |s| - i
  {
    if i < |s| {
      var k := f(s[i]);
      var j := RunEnd(s, f, k, i + 1);
      var gs := Groups(s, f, i);
      GroupsConcat(s, f, j);
      assert gs[1..] == Groups(s, f, j);
      assert s[i..] == s[i..j] + s[j..];
    }
  }

  /** Every group is a non-empty run of its own key that cannot be extended
      to the right; the groups tile `[i, |s|)` in order, and neighbouring
      groups have different keys. */
  lemma GroupsAreRuns<T, K>(s: seq<T>, f: T -> K, i: nat)
    requires i <= |s|
    ensures var gs := Groups(s, f, i);
      (gs == [] <==> i == |s|) &&
      (gs != [] ==> gs[0].first == i && gs[|gs| - 1].last == |s|) &&
      (forall n :: 0 <= n < |gs| ==> gs[n].first < gs[n].last <= |s|) &&
      (forall n, x :: 0 <= n < |gs| && gs[n].first <= x < gs[n].last ==> f(s[x]) == gs[n].key) &&
      (forall n :: 0 <= n < |gs| - 1 ==> gs[n].last == gs[n + 1].first && gs[n].key != gs[n + 1].key)
  {
    GroupsTile(s, f, i);
    GroupsKeys(s, f, i);
    GroupsKeysChange(s, f, i);
  }

  /** The groups tile `[i, |s|)` in order with non-empty runs. */
  lemma {:induction false} GroupsTile<T, K>(s: seq<T>, f: T -> K, i: nat)
    requires i <= |s|
    ensures var gs := Groups(s, f, i);
      (gs == [] <==> i == |s|) &&
      (gs != [] ==> gs[0].first == i && gs[|gs| - 1].last == |s|) &&
      (forall n :: 0 <= n < |gs| ==> gs[n].first < gs[n].last <= |s|) &&
      (forall n :: 0 <= n < |gs| - 1 ==> gs[n].last == gs[n + 1].first)
    decreases |s| - i
  {
    if i < |s| {
      var k := f(s[i]);
      var j := RunEnd(s, f, k, i + 1);
      var gs := Groups(s, f, i);
      var rest := Groups(s, f, j);
      GroupsTile(s, f, j);
      assert gs == [Group(k, i, j)] + rest;
      assert forall n :: 0 < n < |gs| ==> gs[n] == rest[n - 1];
    }
  }

  /** Each group holds only elements of its key. */
  lemma {:induction false} GroupsKeys<T, K>(s: seq<T>, f: T -> K, i: nat)
    requires i <= |s|
    ensures forall n, x :: 0 <= n < |Groups(s, f, i)| && Groups(s, f, i)[n].first <= x < Groups(s, f, i)[n].last <= |s| ==>
      f(s[x]) == Groups(s, f, i)[n].key
    decreases |s| - i
  {
    if i < |s| {
      var k := f(s[i]);
      var j := RunEnd(s, f, k, i + 1);
      var gs := Groups(s, f, i);
      var rest := Groups(s, f, j);
      GroupsKeys(s, f, j);
      assert gs == [Group(k, i, j)] + rest;
      forall n, x | 0 <= n < |gs| && gs[n].first <= x < gs[n].last <= |s|
        ensures f(s[x]) == gs[n].key
      {
        if n > 0 {
          assert gs[n] == rest[n - 1];
        }
      }
    }
  }

  /** The key changes from one group to the next. */
  lemma {:induction false} GroupsKeysChange<T, K>(s: seq<T>, f: T -> K, i: nat)
    requires i <= |s|
    ensures forall n :: 0 <= n < |Groups(s, f, i)| - 1 ==> Groups(s, f, i)[n].key != Groups(s, f, i)[n + 1].key
    decreases |s| - i
  {
    if i < |s| {
      var k := f(s[i]);
      var j := RunEnd(s, f, k, i + 1);
      var gs := Groups(s, f, i);
      var rest := Groups(s, f, j);
      GroupsKeysChange(s, f, j);
      assert gs == [Group(k, i, j)] + rest;
      forall n | 0 <= n < |gs| - 1
        ensures gs[n].key != gs[n + 1].key
      {
        if n == 0 {
          assert j < |s| && gs[1] == rest[0];
        } else {
          assert gs[n] == rest[n - 1] && gs[n + 1] == rest[n];
        }
      }
    }
  }

  /** A group is the last one exactly when its run reaches the end of the
      input. */
  lemma FinalGroup<T, K>(s: seq<T>, f: T -> K, i: nat)
    requires i < |s|
    ensures |Groups(s, f, i)| == 1 <==> RunEnd(s, f, f(s[i]), i + 1) == |s|
  {
    var j := RunEnd(s, f, f(s[i]), i + 1);
    if j < |s| {
      assert |Groups(s, f, j)| > 0;
    }
  }

  /** Every non-empty input ends with a group whose run reaches the end of
      the input: the state from which the final `operator++` is taken has
      `it == |src|` while it is not yet the end cursor. */
  lemma FinalAdvanceOverruns<T, K>(s: seq<T>, f: T -> K)
    requires s != []
    ensures var gs := Groups(s, f, 0);
      gs != [] && gs[|gs| - 1].first < |s| && gs[|gs| - 1].last == |s|
  {
    GroupsAreRuns(s, f, 0);
  }

  /** The cursor of `groupby`: `it` is one past the current group, and
      `nextKey` the last key the scan computed. A key the source leaves
      uninitialised is `None`. */
  class GroupByIterator<T, K(==)> {
    const src: seq<T>
    const keyFn: T -> K
    var it: nat
    var groupFirst: nat
    var curKey: Option<K>
    var nextKey: Option<K>

    /** `it` ends the run that starts at `groupFirst`, `curKey` is the key of
        that run, and `nextKey` is the key of the element at `it`. */
    ghost predicate Valid()
      reads this
    {
      groupFirst <= it <= |src| &&
      (groupFirst == |src| ==> it == |src|) &&
      (groupFirst < |src| ==>
        curKey == Some(keyFn(src[groupFirst])) &&
        it == RunEnd(src, keyFn, keyFn(src[groupFirst]), groupFirst + 1)) &&
      (it < |src| ==> nextKey == Some(keyFn(src[it])))
    }

    /** `groupby_iterator(first, last, key_fn)` over `src[first..]`: on a
        non-empty range it takes the key of the first element and scans to
        the end of its run. */
    constructor (src: seq<T>, keyFn: T -> K, first: nat)
      requires first <= |src|
      ensures Valid() && this.src == src && this.keyFn == keyFn && groupFirst == first
    {
      this.src := src;
      this.keyFn := keyFn;
      it := first;
      groupFirst := first;
      curKey := None;
      nextKey := None;
      new;
      if it != |src| {
        curKey := Some(keyFn(src[it]));
        it := it + 1;
        NextGroup();
      }
    }

    /** `next_group()`: step `it` forward while it holds an element whose
        key equals `curKey`, recording each key it computes in `nextKey`. */
    method NextGroup()
      requires curKey.Some? && it <= |src|
      modifies this
      ensures it == RunEnd(src, keyFn, old(curKey).value, old(it))
      ensures it < |src| ==> nextKey == Some(keyFn(src[it]))
      ensures it == |src| && old(it) < it ==> nextKey == Some(keyFn(src[it - 1]))
      ensures it == old(it) == |src| ==> nextKey == old(nextKey)
      ensures groupFirst == old(groupFirst) && curKey == old(curKey)
    {
      ghost var start := it;
      while it != |src|
        invariant start <= it <= |src|
        invariant RunEnd(src, keyFn, old(curKey).value, start) == RunEnd(src, keyFn, old(curKey).value, it)
        invariant start < it ==> nextKey == Some(keyFn(src[it - 1]))
        invariant it == start ==> nextKey == old(nextKey)
        invariant groupFirst == old(groupFirst) && curKey == old(curKey)
        decreases |src| - it
      {
        nextKey := Some(keyFn(src[it]));
        if nextKey != curKey {
          break;
        }
        it := it + 1;
      }
    }

    /** `operator*`: the current key and the view of its run. */
    function Deref(): (r: (K, RangeView<nat>))
      reads this
      requires Valid() && groupFirst < |src|
      ensures Group(r.0, r.1.first, r.1.last) == Groups(src, keyFn, groupFirst)[0]
    {
      (curKey.value, RangeView(groupFirst, it))
    }

    /** `operator++` as written, from any group: the cursor always steps past
        the end of the current run. `overrun` reports that the run already
        reached the end of the input, where the source moves `it` past `last`
        and the scan then reads outside the input; the state is left as it
        was in that case. */
    method AdvanceAsWritten() returns (overrun: bool)
      requires Valid() && groupFirst < |src|
      modifies this
      ensures overrun <==> old(it) == |src|
      ensures !overrun ==> Valid() && groupFirst == old(it)
      ensures !overrun ==> Groups(src, keyFn, groupFirst) == Groups(src, keyFn, old(groupFirst))[1..]
      ensures overrun ==> unchanged(this)
    {
      overrun := it == |src|;
      if !overrun {
        Advance();
      }
    }

    /** `operator++` with the final group handled: when the run reaches the
        end of the input the cursor becomes the end cursor instead of
        stepping past it. Each call drops exactly one group, so a range-for
        loop emits every group once and then stops. */
    method AdvanceOrFinish()
      requires Valid() && groupFirst < |src|
      modifies this
      ensures Valid() && groupFirst == old(it)
      ensures Groups(src, keyFn, groupFirst) == Groups(src, keyFn, old(groupFirst))[1..]
      ensures |Groups(src, keyFn, groupFirst)| + 1 == |Groups(src, keyFn, old(groupFirst))|
    {
      if it == |src| {
        groupFirst := it;
      } else {
        Advance();
      }
    }

    /** `operator==`: the group starts only. */
    predicate Equals(other: GroupByIterator<T, K>)
      reads this, other
      ensures Equals(other) <==> groupFirst == other.groupFirst
    {
      groupFirst == other.groupFirst
    }

    /** `operator++`: the next group starts where this one ended, under the
        key the scan already computed. The step past the group end needs an
        element there, so the run must not reach the end of the input. */
    method Advance()
      requires Valid() && it < |src|
      modifies this
      ensures Valid() && groupFirst == old(it) && curKey == old(nextKey)
      ensures Groups(src, keyFn, groupFirst) == Groups(src, keyFn, old(groupFirst))[1..]
    {
      groupFirst := it;
      curKey := nextKey;
      it := it + 1;
      NextGroup();
    }
  }

  /** `groupby(first, last, fn)`: begin over the whole input, end built at
      `last`. */
  method Range<T, K(==)>(src: seq<T>, keyFn: T -> K) returns (view: RangeView<GroupByIterator<T, K>>)
    ensures fresh(view.first) && fresh(view.last)
    ensures view.first.Valid() && view.first.src == src && view.first.groupFirst == 0
    ensures view.last.Valid() && view.last.src == src && view.last.groupFirst == |src|
    ensures src == [] <==> view.first.Equals(view.last)
  {
    var first := new GroupByIterator(src, keyFn, 0);
    var last := new GroupByIterator(src, keyFn, |src|);
    view := RangeView(first, last);
  }
}
