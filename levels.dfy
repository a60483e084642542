/** Vocabulary shared by the four nested engines (product, permutations,
    combinations, combinations with replacement): a composite cursor is a
    right-nested chain of levels, outermost first, each holding its own
    cursor and its own last position. */
module Levels {

  /** One level of a composite cursor: the position `it` of its own cursor and
      the position `last` at which that cursor is exhausted. */
  datatype Level = Level(it: nat, last: nat)

  /** The positions of all levels, outermost first: what `operator==`
      compares, recursively, at every level. */
  function Cursors(ls: seq<Level>): seq<nat>
  {
    seq(|ls|, i requires 0 <= i < |ls| => ls[i].it)
  }

  /** `operator==` of a nested iterator compares every level's position and
      nothing else; against an all-last state over the same lasts it holds
      exactly at that state. */
  lemma CursorsEqual(a: seq<Level>, b: seq<Level>)
    ensures |a| == |b| ==> (Cursors(a) == Cursors(b) <==> forall i :: 0 <= i < |a| ==> a[i].it == b[i].it)
    ensures SameLasts(a, b) && AtLast(b) ==> (Cursors(a) == Cursors(b) <==> AtLast(a))
  {
    if |a| == |b| {
      if forall i :: 0 <= i < |a| ==> a[i].it == b[i].it {
        assert Cursors(a) == Cursors(b);
      }
      if Cursors(a) == Cursors(b) {
        forall i | 0 <= i < |a|
          ensures a[i].it == b[i].it
        {
          assert Cursors(a)[i] == Cursors(b)[i];
        }
      }
    }
  }

  /** Two nests of the same depth whose levels have the same last positions. */
  predicate SameLasts(a: seq<Level>, b: seq<Level>)
  {
    |a| == |b| && forall i :: 0 <= i < |a| ==> a[i].last == b[i].last
  }

  /** Every level sits at its last position: the composite equals its saved
      "last" copy. */
  predicate AtLast(ls: seq<Level>)
  {
    forall i :: 0 <= i < |ls| ==> ls[i].it == ls[i].last
  }

  /** Every level can be dereferenced. */
  predicate AllBelow(ls: seq<Level>)
  {
    forall i :: 0 <= i < |ls| ==> ls[i].it < ls[i].last
  }

  /** No level has run past its last position. */
  predicate WithinLast(ls: seq<Level>)
  {
    forall i :: 0 <= i < |ls| ==> ls[i].it <= ls[i].last
  }

  /** The levels put back to the first position of each input: the saved
      "first" copy of a product or permutations sub-cursor. */
  function Reset(ls: seq<Level>): seq<Level>
  {
    seq(|ls|, i requires 0 <= i < |ls| => Level(0, ls[i].last))
  }

  /** Number of position tuples a nest ranges over: the product of the lasts. */
  function Size(ls: seq<Level>): nat
  {
    if ls == [] then 1 else ls[0].last * Size(ls[1..])
  }

  /** Mixed-radix value of the positions, with the outermost level the most
      significant digit: the lexicographic rank of a position tuple. */
  function Value(ls: seq<Level>): nat
  {
    if ls == [] then 0 else ls[0].it * Size(ls[1..]) + Value(ls[1..])
  }

  /** Strict lexicographic order on equally long position tuples. */
  predicate LexLess(a: seq<nat>, b: seq<nat>)
    requires |a| == |b|
  {
    |a| > 0 && (a[0] < b[0] || (a[0] == b[0] && LexLess(a[1..], b[1..])))
  }

  lemma {:induction false} ValueBelowSize(ls: seq<Level>)
    requires AllBelow(ls)
    ensures Value(ls) < Size(ls)
  {
    if ls != [] {
      var t := ls[1..];
      ValueBelowSize(t);
      var h, s := ls[0].it, Size(t);
      calc {
        Value(ls);
        h * s + Value(t);
      < h * s + s;
        (h + 1) * s;
      <= { assert h + 1 <= ls[0].last; MulMonotone(h + 1, ls[0].last, s); }
        ls[0].last * s;
        Size(ls);
      }
    }
  }

  /** The length of each input, in argument order. */
  function Lengths<T>(srcs: seq<seq<T>>): (r: seq<nat>)
    ensures |r| == |srcs| && forall i :: 0 <= i < |r| ==> r[i] == |srcs[i]|
  {
    seq(|srcs|, i requires 0 <= i < |srcs| => |srcs[i]|)
  }

  lemma MulMonotone(a: nat, b: nat, c: nat)
    requires a <= b
    ensures a * c <= b * c
  {
  }

  lemma ResetShape(ls: seq<Level>)
    ensures SameLasts(Reset(ls), ls)
    ensures forall i :: 0 <= i < |ls| ==> Reset(ls)[i].it == 0
  {
  }

  /** Resetting a nest whose inputs are all non-empty gives the first tuple. */
  lemma {:induction false} ResetValue(ls: seq<Level>)
    requires forall i :: 0 <= i < |ls| ==> ls[i].last > 0
    ensures AllBelow(Reset(ls)) && Value(Reset(ls)) == 0 && Size(Reset(ls)) == Size(ls)
  {
    if ls != [] {
      ResetValue(ls[1..]);
      assert Reset(ls)[1..] == Reset(ls[1..]);
    }
  }

  lemma {:induction false} SizeDependsOnLasts(a: seq<Level>, b: seq<Level>)
    requires SameLasts(a, b)
    ensures Size(a) == Size(b)
  {
    if a != [] {
      SizeDependsOnLasts(a[1..], b[1..]);
    }
  }

  lemma {:induction false} SizePositive(ls: seq<Level>)
    requires forall i :: 0 <= i < |ls| ==> ls[i].last > 0
    ensures Size(ls) > 0
  {
    if ls != [] {
      SizePositive(ls[1..]);
    }
  }

  lemma ValueCons(h: Level, t: seq<Level>)
    ensures Value([h] + t) == h.it * Size(t) + Value(t)
    ensures Size([h] + t) == h.last * Size(t)
  {
    assert ([h] + t)[1..] == t;
  }

  lemma AtLastCons(h: Level, t: seq<Level>)
    requires h.it == h.last && AtLast(t)
    ensures AtLast([h] + t)
  {
  }

  /** On dereferenceable tuples over the same lasts, rank order is
      lexicographic order. */
  lemma {:induction false} ValueOrderIsLex(a: seq<Level>, b: seq<Level>)
    requires SameLasts(a, b) && AllBelow(a) && AllBelow(b) && Value(a) < Value(b)
    ensures LexLess(Cursors(a), Cursors(b))
  {
    assert a != [];
    var ta, tb := a[1..], b[1..];
    ValueCons(a[0], ta);
    ValueCons(b[0], tb);
    assert a == [a[0]] + ta && b == [b[0]] + tb;
    SizeDependsOnLasts(ta, tb);
    ValueBelowSize(ta);
    ValueBelowSize(tb);
    if a[0].it > b[0].it {
      DigitDominates(a[0].it, b[0].it, Size(ta), Value(ta), Value(tb));
      assert false;
    } else if a[0].it == b[0].it {
      ValueOrderIsLex(ta, tb);
      assert Cursors(a)[1..] == Cursors(ta);
      assert Cursors(b)[1..] == Cursors(tb);
    } else {
      assert Cursors(a)[0] < Cursors(b)[0];
    }
  }

  /** On dereferenceable tuples over the same lasts, the rank determines the
      tuple. */
  lemma {:induction false} ValueInjective(a: seq<Level>, b: seq<Level>)
    requires SameLasts(a, b) && AllBelow(a) && AllBelow(b) && Value(a) == Value(b)
    ensures a == b
  {
    if a != [] {
      var ta, tb := a[1..], b[1..];
      assert SameLasts(ta, tb) && AllBelow(ta) && AllBelow(tb) by {
        assert forall i :: 0 <= i < |ta| ==> ta[i] == a[i + 1] && tb[i] == b[i + 1];
      }
      var s := Size(ta);
      assert Size(tb) == s by {
        SizeDependsOnLasts(ta, tb);
      }
      assert Value(ta) < s && Value(tb) < s by {
        ValueBelowSize(ta);
        ValueBelowSize(tb);
      }
      assert a[0].it * s + Value(ta) == b[0].it * s + Value(tb);
      SameDigits(a[0].it, b[0].it, s, Value(ta), Value(tb));
      ValueInjective(ta, tb);
      assert a == [a[0]] + ta && b == [b[0]] + tb;
    }
  }

  /** Two mixed-radix numbers with in-range lower parts are equal only when
      their leading digits and lower parts are. */
  lemma SameDigits(x: nat, y: nat, s: nat, vx: nat, vy: nat)
    requires vx < s && vy < s && x * s + vx == y * s + vy
    ensures x == y && vx == vy
  {
    if x > y {
      DigitDominates(x, y, s, vx, vy);
    } else if x < y {
      DigitDominates(y, x, s, vy, vx);
    }
  }

  lemma DigitDominates(x: nat, y: nat, s: nat, vx: nat, vy: nat)
    requires x > y && vy < s
    ensures x * s + vx > y * s + vy
  {
    MulMonotone(y + 1, x, s);
  }

  /** Every dereferenceable tuple is lexicographically below the all-last tuple. */
  lemma BelowIsLexBeforeLast(a: seq<Level>, b: seq<Level>)
    requires SameLasts(a, b) && a != [] && AllBelow(a) && AtLast(b)
    ensures LexLess(Cursors(a), Cursors(b))
  {
  }

  // ---------------------------------------------------------------------
  // One level of a nest updated in place

  /** The prefix before level k, then level k. */
  lemma Split(ls: seq<Level>, k: nat)
    requires k < |ls|
    ensures ls[..k + 1] == ls[..k] + [ls[k]]
  {
  }

  /** Overwriting the level between a prefix and a suffix. */
  lemma Splice(pre: seq<Level>, y: Level, rest: seq<Level>, x: Level)
    ensures (pre + [y] + rest)[|pre| := x] == pre + [x] + rest
    ensures (pre + [x] + rest)[|pre| + 1..] == rest && (pre + [x] + rest)[|pre|] == x
    ensures pre + [x] + rest == pre + ([x] + rest)
  {
  }

  /** Replacing everything after the level following a prefix. */
  lemma Reattach(pre: seq<Level>, x: Level, rest: seq<Level>, rest': seq<Level>)
    ensures (pre + [x] + rest)[..|pre| + 1] + rest' == pre + ([x] + rest')
    ensures (pre + [x] + rest)[|pre| + 1..] == rest
  {
    assert (pre + [x] + rest)[..|pre| + 1] == pre + [x];
  }

  /** A prefix and what follows it, taken apart again. */
  lemma Parts(pre: seq<Level>, tail: seq<Level>)
    ensures (pre + tail)[..|pre|] == pre && (pre + tail)[|pre|..] == tail
  {
  }
}
