/** `compress`: the data elements whose selector is true, stopping when
    either the data or the selectors run out. Two cursors that always move
    together. */
module Compress {
  import opened RangeViews

  /** The data elements paired with a true selector, up to the shorter of
      the two: the reference the iteration is proved against. */
  function Compressed<T>(data: seq<T>, sel: seq<bool>): seq<T>
  {
    if data == [] || sel == [] then [] else (if sel[0] then [data[0]] else []) + Compressed(data[1..], sel[1..])
  }

  /** How many steps `next_selected` takes from cursors `d` and `s`: it
      stops at either last or at a true selector. */
  function SkipCount(dlen: nat, sel: seq<bool>, d: nat, s: nat): (k: nat)
    requires d <= dlen && s <= |sel|
    ensures d + k <= dlen && s + k <= |sel|
    ensures forall j :: s <= j < s + k ==> !sel[j]
    ensures d + k == dlen || s + k == |sel| || sel[s + k]
    decreases dlen - d
  {
    if s == |sel| || d == dlen || sel[s] then 0 else 1 + SkipCount(dlen, sel, d + 1, s + 1)
  }

  lemma {:induction false} SkipCountUnique(dlen: nat, sel: seq<bool>, d: nat, s: nat, k: nat)
    requires d + k <= dlen && s + k <= |sel|
    requires forall j :: s <= j < s + k ==> !sel[j]
    requires d + k == dlen || s + k == |sel| || sel[s + k]
    ensures SkipCount(dlen, sel, d, s) == k
    decreases k
  {
    if k > 0 {
      SkipCountUnique(dlen, sel, d + 1, s + 1, k - 1);
    }
  }

  /** What a range-for loop emits from both cursors at `i` (not yet
      skipped): it stops once either cursor is at its last, where the end
      cursor matches it. */
  function Emit<T>(data: seq<T>, sel: seq<bool>, i: nat): seq<T>
    requires i <= |data| && i <= |sel|
    decreases |data| - i
  {
    var j := i + SkipCount(|data|, sel, i, i);
    if j == |data| || j == |sel| then [] else [data[j]] + Emit(data, sel, j + 1)
  }

  lemma {:induction false} SkipDropsUnselected<T>(data: seq<T>, sel: seq<bool>, i: nat)
    requires i <= |data| && i <= |sel|
    ensures var j := i + SkipCount(|data|, sel, i, i);
      Compressed(data[i..], sel[i..]) == Compressed(data[j..], sel[j..])
    decreases |data| - i
  {
    if !(i == |sel| || i == |data| || sel[i]) {
      assert SkipCount(|data|, sel, i, i) == 1 + SkipCount(|data|, sel, i + 1, i + 1);
      DropUnselected(data, sel, i);
      SkipDropsUnselected(data, sel, i + 1);
    }
  }

  lemma DropUnselected<T>(data: seq<T>, sel: seq<bool>, i: nat)
    requires i < |data| && i < |sel| && !sel[i]
    ensures Compressed(data[i..], sel[i..]) == Compressed(data[i + 1..], sel[i + 1..])
  {
    assert data[i..][1..] == data[i + 1..] && sel[i..][1..] == sel[i + 1..];
  }

  /** The compressed output is exactly the data elements with a true
      selector, up to the shorter input. */
  lemma {:induction false} CompressIsCompressed<T>(data: seq<T>, sel: seq<bool>, i: nat)
    requires i <= |data| && i <= |sel|
    ensures Emit(data, sel, i) == Compressed(data[i..], sel[i..])
    decreases |data| - i
  {
    var j := i + SkipCount(|data|, sel, i, i);
    SkipDropsUnselected(data, sel, i);
    if j < |data| && j < |sel| {
      assert data[j..][1..] == data[j + 1..] && sel[j..][1..] == sel[j + 1..];
      CompressIsCompressed(data, sel, j + 1);
    }
  }

  /** The cursor of one `compress(...)` call. */
  class CompressIterator<T> {
    const data: seq<T>
    const sel: seq<bool>
    var d: nat
    var s: nat

    /** Within both inputs, and on a true selector unless at a last. */
    ghost predicate Valid()
      reads this
    {
      d <= |data| && s <= |sel| && (d < |data| && s < |sel| ==> sel[s])
    }

    /** `compress_iterator(d_it, d_it_last, s_it, s_it_last)`: skip to the
        first true selector. */
    constructor (data: seq<T>, sel: seq<bool>, d: nat, s: nat)
      requires d <= |data| && s <= |sel|
      ensures Valid() && this.data == data && this.sel == sel
      ensures var k := SkipCount(|data|, sel, d, s); this.d == d + k && this.s == s + k
    {
      this.data := data;
      this.sel := sel;
      this.d := d;
      this.s := s;
      new;
      NextSelected();
    }

    /** `next_selected`: step both cursors past false selectors. */
    method NextSelected()
      requires d <= |data| && s <= |sel|
      modifies this
      ensures Valid()
      ensures var k := SkipCount(|data|, sel, old(d), old(s)); d == old(d) + k && s == old(s) + k
    {
      ghost var k := 0;
      while s != |sel| && d != |data| && !sel[s]
        invariant d == old(d) + k && s == old(s) + k
        invariant d <= |data| && s <= |sel|
        invariant forall j :: old(s) <= j < s ==> !sel[j]
        decreases |data| - d
      {
        s := s + 1;
        d := d + 1;
        k := k + 1;
      }
      SkipCountUnique(|data|, sel, old(d), old(s), k);
    }

    /** `operator*`: the current data element, whose selector is true. */
    function Deref(): (r: T)
      reads this
      requires Valid() && d < |data| && s < |sel|
      ensures r == data[d] && sel[s]
    {
      data[d]
    }

    /** `operator==`: the data cursors match or the selector cursors do. */
    predicate Equals(other: CompressIterator<T>)
      reads this, other
      ensures Equals(other) <==> d == other.d || s == other.s
    {
      d == other.d || s == other.s
    }

    /** `operator++`: both cursors one step, then skip; the offset between
        them is kept. */
    method Advance()
      requires Valid() && d < |data| && s < |sel|
      modifies this
      ensures Valid() && d > old(d) && d - old(d) == s - old(s)
      ensures var k := SkipCount(|data|, sel, old(d) + 1, old(s) + 1); d == old(d) + 1 + k && s == old(s) + 1 + k
    {
      d := d + 1;
      s := s + 1;
      NextSelected();
    }
  }

  /** `compress(data, selectors)`: begin at both firsts (skipped), end at
      both lasts. */
  method Range<T>(data: seq<T>, sel: seq<bool>) returns (view: RangeView<CompressIterator<T>>)
    ensures fresh(view.first) && fresh(view.last)
    ensures view.first.Valid() && view.first.data == data && view.first.sel == sel
    ensures var k := SkipCount(|data|, sel, 0, 0); view.first.d == k && view.first.s == k
    ensures view.last.Valid() && view.last.d == |data| && view.last.s == |sel|
  {
    var first := new CompressIterator(data, sel, 0, 0);
    var last := new CompressIterator(data, sel, |data|, |sel|);
    view := RangeView(first, last);
  }

  lemma CompressedCons<T>(x: T, t: seq<T>, b: bool, u: seq<bool>)
    ensures Compressed([x] + t, [b] + u) == (if b then [x] else []) + Compressed(t, u)
  {
    assert ([x] + t)[1..] == t && ([b] + u)[1..] == u;
  }

  /** 1 2 3 4 against F T F T gives 2 4; a selector or data input one
      shorter cuts the output to 2; an empty input gives nothing. */
  lemma Examples(data: seq<int>, sel: seq<bool>)
    requires data == [1, 2, 3, 4] && sel == [false, true, false, true]
    ensures Compressed(data, sel) == [2, 4]
    ensures Compressed(data, sel[..3]) == [2]
    ensures Compressed(data[..3], sel) == [2]
    ensures Compressed(data, []) == [] && Compressed(data[..0], sel) == []
  {
    CompressedCons(4, [], true, []);
    CompressedCons(3, [4], false, [true]);
    CompressedCons(2, [3, 4], true, [false, true]);
    CompressedCons(1, [2, 3, 4], false, [true, false, true]);
    assert data == [1] + [2, 3, 4] && sel == [false] + [true, false, true];
    CompressedCons(3, [4], false, []);
    CompressedCons(2, [3, 4], true, [false]);
    CompressedCons(1, [2, 3, 4], false, [true, false]);
    assert sel[..3] == [false] + [true, false];
    CompressedCons(3, [], false, [true]);
    CompressedCons(2, [3], true, [false, true]);
    CompressedCons(1, [2, 3], false, [true, false, true]);
    assert data[..3] == [1] + [2, 3];
  }
}
