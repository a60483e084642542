/** The nested engine shared by `combinations_iterator` and
    `combinations_with_replacement_iterator`. Both are a right-nested chain of
    levels whose advance steps the innermost level and, when a nested level
    is exhausted, bumps the level holding it and rewinds everything nested
    inside. The two templates differ only in the offset between a level and
    its nested level: `gap` is 1 for combinations (the nested level works
    over `(next(it), next(it_last))` and is rewound to `next(it)`) and 0 for
    combinations with replacement (same range, rewound to `it`). */
module RewindEngine {
  import opened Levels

  /** The levels of an iterator constructed over `(it, it_last)` = `(p, m)`:
      each nested level is built over the range shifted by `gap`. */
  function Built(p: nat, m: nat, n: nat, gap: nat): (r: seq<Level>)
    ensures |r| == n
    ensures n > 0 ==> r[0] == Level(p, m)
    decreases n
  {
    if n == 0 then [] else [Level(p, m)] + Built(p + gap, m + gap, n - 1, gap)
  }

  /** `rewind(p)`: this level goes to `p`, each nested level to the position
      `gap` after the level holding it. The lasts are untouched. */
  function Rewind(ls: seq<Level>, p: nat, gap: nat): (r: seq<Level>)
    ensures |r| == |ls|
    decreases |ls|
  {
    if ls == [] then [] else [Level(p, ls[0].last)] + Rewind(ls[1..], p + gap, gap)
  }

  /** `exhausted()`: the outermost cursor of the nest is at its own last. */
  predicate Exhausted(ls: seq<Level>)
    requires ls != []
    ensures AtLast(ls) ==> Exhausted(ls)
  {
    ls[0].it == ls[0].last
  }

  /** `operator++`: step the innermost level; when the nested part becomes
      exhausted, bump this level and rewind the nested part to start `gap`
      after it. The outermost position never moves backwards. */
  function Next(ls: seq<Level>, gap: nat): (r: seq<Level>)
    requires ls != []
    ensures |r| == |ls|
    decreases |ls|
  {
    if |ls| == 1 then [ls[0].(it := ls[0].it + 1)]
    else
      var sub := Next(ls[1..], gap);
      if Exhausted(sub) then
        var h := ls[0].(it := ls[0].it + 1);
        [h] + Rewind(sub, h.it + gap, gap)
      else
        [ls[0]] + sub
  }

  /** `operator*` of either iterator: the elements at the current positions,
      outermost first. */
  function Tuple<T>(src: seq<T>, ls: seq<Level>): (r: seq<T>)
    requires forall i :: 0 <= i < |ls| ==> ls[i].it < |src|
    ensures |r| == |ls| && forall i :: 0 <= i < |r| ==> r[i] == src[ls[i].it]
  {
    if ls == [] then [] else [src[ls[0].it]] + Tuple(src, ls[1..])
  }

  /** The state after `j` advances. */
  function Run(ls: seq<Level>, j: nat, gap: nat): (r: seq<Level>)
    requires ls != []
    ensures |r| == |ls|
  {
    if j == 0 then ls else Next(Run(ls, j - 1, gap), gap)
  }

  /** Positions spaced at least `gap` apart: strictly increasing for
      combinations, non-decreasing for combinations with replacement. */
  predicate Spaced(ls: seq<Level>, gap: nat)
  {
    forall i :: 0 <= i < |ls| - 1 ==> ls[i].it + gap <= ls[i + 1].it
  }

  /** Each nested level's last is `gap` past the last of the level holding it,
      as `Built` lays them out. */
  predicate LastsShifted(ls: seq<Level>, gap: nat)
  {
    forall i :: 0 <= i < |ls| - 1 ==> ls[i].last + gap == ls[i + 1].last
  }

  /** The number of advances a nest of `n` levels, built over a range of
      `d` positions for its outermost level, takes to reach its end. */
  function Steps(d: nat, n: nat): nat
    requires n >= 1
  {
    if d == 0 then 0
    else if n == 1 then d
    else Steps(d, n - 1) + Steps(d - 1, n)
  }

  /** The binomial coefficient, by Pascal's rule. */
  function Choose(a: nat, b: nat): nat
  {
    if b == 0 then 1
    else if a == 0 then 0
    else Choose(a - 1, b - 1) + Choose(a - 1, b)
  }

  // ---------------------------------------------------------------------
  // Shape invariants

  /** After `rewind(p)` the level at depth `i` is at `p + gap * i`. */
  lemma {:induction false} RewindPositions(ls: seq<Level>, p: nat, gap: nat)
    ensures forall i :: 0 <= i < |ls| ==> Rewind(ls, p, gap)[i].it == p + gap * i
    decreases |ls|
  {
    if ls != [] {
      RewindPositions(ls[1..], p + gap, gap);
      var r := Rewind(ls, p, gap);
      var t := Rewind(ls[1..], p + gap, gap);
      assert r == [Level(p, ls[0].last)] + t;
      forall i | 1 <= i < |ls|
        ensures r[i].it == p + gap * i
      {
        assert r[i] == t[i - 1];
        assert gap * i == gap + gap * (i - 1);
      }
    }
  }

  /** Rewinding moves positions only: every last is untouched. */
  lemma {:induction false} RewindSameLasts(ls: seq<Level>, p: nat, gap: nat)
    ensures SameLasts(Rewind(ls, p, gap), ls)
    decreases |ls|
  {
    if ls != [] {
      RewindSameLasts(ls[1..], p + gap, gap);
      var r := Rewind(ls, p, gap);
      assert r == [Level(p, ls[0].last)] + Rewind(ls[1..], p + gap, gap);
      forall i | 0 <= i < |r|
        ensures r[i].last == ls[i].last
      {
        if i > 0 {
          assert r[i] == Rewind(ls[1..], p + gap, gap)[i - 1] && ls[i] == ls[1..][i - 1];
        }
      }
    }
  }

  /** Advancing moves positions only: every last is untouched. */
  lemma {:induction false} NextSameLasts(ls: seq<Level>, gap: nat)
    requires ls != []
    ensures SameLasts(Next(ls, gap), ls)
    decreases |ls|
  {
    if |ls| > 1 {
      var t := ls[1..];
      NextSameLasts(t, gap);
      var sub := Next(t, gap);
      var r := Next(ls, gap);
      var tail := sub;
      if Exhausted(sub) {
        RewindSameLasts(sub, ls[0].it + 1 + gap, gap);
        tail := Rewind(sub, ls[0].it + 1 + gap, gap);
      }
      assert r[0].last == ls[0].last && r[1..] == tail;
      forall i | 0 <= i < |r|
        ensures r[i].last == ls[i].last
      {
        if i > 0 {
          assert r[i] == tail[i - 1] && ls[i] == t[i - 1];
        }
      }
    }
  }

  lemma {:induction false} RunSameLasts(ls: seq<Level>, j: nat, gap: nat)
    requires ls != []
    ensures SameLasts(Run(ls, j, gap), ls)
    decreases j
  {
    if j > 0 {
      RunSameLasts(ls, j - 1, gap);
      NextSameLasts(Run(ls, j - 1, gap), gap);
    }
  }

  lemma {:induction false} RewindSpaced(ls: seq<Level>, p: nat, gap: nat)
    ensures Spaced(Rewind(ls, p, gap), gap)
    decreases |ls|
  {
    if |ls| > 1 {
      RewindSpaced(ls[1..], p + gap, gap);
      var r := Rewind(ls, p, gap);
      assert r[1..] == Rewind(ls[1..], p + gap, gap);
      forall i | 0 <= i < |r| - 1
        ensures r[i].it + gap <= r[i + 1].it
      {
        if i > 0 {
          assert r[i] == r[1..][i - 1] && r[i + 1] == r[1..][i];
        }
      }
    }
  }

  lemma SpacedCons(h: Level, t: seq<Level>, gap: nat)
    requires t != [] && Spaced(t, gap) && h.it + gap <= t[0].it
    ensures Spaced([h] + t, gap)
  {
    var r := [h] + t;
    forall i | 0 <= i < |r| - 1
      ensures r[i].it + gap <= r[i + 1].it
    {
      if i > 0 {
        assert r[i] == t[i - 1] && r[i + 1] == t[i];
      }
    }
  }

  lemma SpacedTail(ls: seq<Level>, gap: nat)
    requires |ls| > 1 && Spaced(ls, gap)
    ensures Spaced(ls[1..], gap) && ls[0].it + gap <= ls[1..][0].it
  {
    var t := ls[1..];
    forall i | 0 <= i < |t| - 1
      ensures t[i].it + gap <= t[i + 1].it
    {
      assert t[i] == ls[i + 1] && t[i + 1] == ls[i + 2];
    }
  }

  /** Advancing keeps positions spaced: strictly increasing positions stay
      strictly increasing for combinations, non-decreasing ones stay
      non-decreasing for combinations with replacement. */
  lemma {:induction false} NextKeepsSpaced(ls: seq<Level>, gap: nat)
    requires ls != [] && Spaced(ls, gap)
    ensures Spaced(Next(ls, gap), gap)
    decreases |ls|
  {
    if |ls| > 1 {
      var t := ls[1..];
      SpacedTail(ls, gap);
      NextKeepsSpaced(t, gap);
      var sub := Next(t, gap);
      if Exhausted(sub) {
        var h := ls[0].(it := ls[0].it + 1);
        RewindSpaced(sub, h.it + gap, gap);
        SpacedCons(h, Rewind(sub, h.it + gap, gap), gap);
      } else {
        SpacedCons(ls[0], sub, gap);
      }
    }
  }

  lemma LastsShiftedTail(ls: seq<Level>, gap: nat)
    requires |ls| > 1 && LastsShifted(ls, gap)
    ensures LastsShifted(ls[1..], gap) && ls[0].last + gap == ls[1..][0].last
  {
    var t := ls[1..];
    forall i | 0 <= i < |t| - 1
      ensures t[i].last + gap == t[i + 1].last
    {
      assert t[i] == ls[i + 1] && t[i + 1] == ls[i + 2];
    }
  }

  /** Rewinding a nest with shifted lasts to a position below its outermost
      last leaves every level dereferenceable; rewinding exactly to that last
      puts every level at its last. */
  lemma {:induction false} RewindBounds(ls: seq<Level>, p: nat, gap: nat)
    requires ls != [] && LastsShifted(ls, gap) && p <= ls[0].last
    ensures p < ls[0].last ==> AllBelow(Rewind(ls, p, gap))
    ensures p == ls[0].last ==> AtLast(Rewind(ls, p, gap))
    decreases |ls|
  {
    var h := Level(p, ls[0].last);
    var t := Rewind(ls[1..], p + gap, gap);
    assert Rewind(ls, p, gap) == [h] + t;
    if |ls| > 1 {
      LastsShiftedTail(ls, gap);
      RewindBounds(ls[1..], p + gap, gap);
    }
    if p < ls[0].last {
      AllBelowCons(h, t);
    } else {
      AtLastCons(h, t);
    }
  }

  lemma AllBelowCons(h: Level, t: seq<Level>)
    requires h.it < h.last && AllBelow(t)
    ensures AllBelow([h] + t)
  {
  }

  lemma LastsShiftedSame(a: seq<Level>, b: seq<Level>, gap: nat)
    requires SameLasts(a, b) && LastsShifted(b, gap)
    ensures LastsShifted(a, gap)
  {
  }

  /** Every cursor stays within its bounds: from a dereferenceable state an
      advance gives a dereferenceable state or the all-last state. */
  lemma {:induction false} NextStaysInBounds(ls: seq<Level>, gap: nat)
    requires ls != [] && LastsShifted(ls, gap) && AllBelow(ls)
    ensures AllBelow(Next(ls, gap)) || AtLast(Next(ls, gap))
    decreases |ls|
  {
    if |ls| == 1 {
      var h := ls[0].(it := ls[0].it + 1);
      assert Next(ls, gap) == [h] + [];
      if h.it < h.last {
        AllBelowCons(h, []);
      } else {
        AtLastCons(h, []);
      }
    } else {
      var t := ls[1..];
      LastsShiftedTail(ls, gap);
      AllBelowTail(ls);
      NextStaysInBounds(t, gap);
      var sub := Next(t, gap);
      NextSameLasts(t, gap);
      if Exhausted(sub) {
        CarryInBounds(ls[0], t, sub, gap);
      } else {
        AllBelowCons(ls[0], sub);
      }
    }
  }

  lemma AllBelowTail(ls: seq<Level>)
    requires ls != [] && AllBelow(ls)
    ensures ls[0].it < ls[0].last && AllBelow(ls[1..])
  {
    var t := ls[1..];
    forall i | 0 <= i < |t|
      ensures t[i].it < t[i].last
    {
      assert t[i] == ls[i + 1];
    }
  }

  lemma CarryInBounds(h: Level, t: seq<Level>, sub: seq<Level>, gap: nat)
    requires t != [] && h.it < h.last && h.last + gap == t[0].last
    requires LastsShifted(t, gap) && SameLasts(sub, t)
    ensures var s := [h.(it := h.it + 1)] + Rewind(sub, h.it + 1 + gap, gap);
      AllBelow(s) || AtLast(s)
  {
    var h' := h.(it := h.it + 1);
    var rw := Rewind(sub, h'.it + gap, gap);
    LastsShiftedSame(sub, t, gap);
    RewindBounds(sub, h'.it + gap, gap);
    if h'.it < h'.last {
      AllBelowCons(h', rw);
    } else {
      AtLastCons(h', rw);
    }
  }

  /** Each advance strictly increases the position tuple lexicographically:
      the emission order. */
  lemma {:induction false} NextIsLexGreater(ls: seq<Level>, gap: nat)
    requires ls != []
    ensures LexLess(Cursors(ls), Cursors(Next(ls, gap)))
    decreases |ls|
  {
    if |ls| > 1 {
      var t := ls[1..];
      var sub := Next(t, gap);
      var r := Next(ls, gap);
      if !Exhausted(sub) {
        NextIsLexGreater(t, gap);
        assert r == [ls[0]] + sub;
        assert Cursors(ls)[1..] == Cursors(t);
        assert Cursors(r)[1..] == Cursors(sub);
      }
    }
  }

  /** A freshly built nest is spaced, has shifted lasts, keeps every last
      within `bound` when the deepest one is, and is dereferenceable when its
      outermost range is non-empty. */
  lemma BuiltShape(p: nat, m: nat, n: nat, gap: nat, bound: nat)
    requires n >= 1 && m + gap * (n - 1) <= bound
    ensures Spaced(Built(p, m, n, gap), gap) && LastsShifted(Built(p, m, n, gap), gap)
    ensures forall i :: 0 <= i < n ==> Built(p, m, n, gap)[i].last <= bound
    ensures p < m ==> AllBelow(Built(p, m, n, gap))
  {
    BuiltSpaced(p, m, n, gap);
    BuiltLasts(p, m, n, gap, bound);
    if p < m {
      BuiltBelow(p, m, n, gap);
    }
  }

  /** The shape of a freshly built nest, without a bound on its lasts. */
  lemma BuiltShifted(p: nat, m: nat, n: nat, gap: nat)
    requires n >= 1
    ensures Spaced(Built(p, m, n, gap), gap) && LastsShifted(Built(p, m, n, gap), gap)
    ensures p < m ==> AllBelow(Built(p, m, n, gap))
  {
    BuiltShape(p, m, n, gap, m + gap * (n - 1));
  }

  lemma {:induction false} BuiltSpaced(p: nat, m: nat, n: nat, gap: nat)
    ensures Spaced(Built(p, m, n, gap), gap)
    decreases n
  {
    if n > 1 {
      BuiltSpaced(p + gap, m + gap, n - 1, gap);
      var t := Built(p + gap, m + gap, n - 1, gap);
      assert Built(p, m, n, gap) == [Level(p, m)] + t;
      SpacedCons(Level(p, m), t, gap);
    }
  }

  lemma {:induction false} BuiltLasts(p: nat, m: nat, n: nat, gap: nat, bound: nat)
    requires n >= 1 && m + gap * (n - 1) <= bound
    ensures LastsShifted(Built(p, m, n, gap), gap)
    ensures forall i :: 0 <= i < n ==> Built(p, m, n, gap)[i].last <= bound
    decreases n
  {
    var b := Built(p, m, n, gap);
    if n > 1 {
      assert gap * (n - 1) == gap + gap * (n - 2);
      BuiltLasts(p + gap, m + gap, n - 1, gap, bound);
      var t := Built(p + gap, m + gap, n - 1, gap);
      assert b == [Level(p, m)] + t;
      forall i | 0 <= i < n - 1
        ensures b[i].last + gap == b[i + 1].last
      {
        if i > 0 {
          assert b[i] == t[i - 1] && b[i + 1] == t[i];
        }
      }
      forall i | 0 <= i < n
        ensures b[i].last <= bound
      {
        if i > 0 {
          assert b[i] == t[i - 1];
        }
      }
    }
  }

  /** A nest built over `(m, m)` has every level at its last. */
  lemma {:induction false} BuiltAtLast(m: nat, n: nat, gap: nat)
    ensures AtLast(Built(m, m, n, gap))
    decreases n
  {
    if n > 0 {
      BuiltAtLast(m + gap, n - 1, gap);
      AtLastCons(Level(m, m), Built(m + gap, m + gap, n - 1, gap));
    }
  }

  /** With no gap, every level of a freshly built nest is over the same
      range, at the same position. */
  lemma {:induction false} BuiltFlat(p: nat, m: nat, n: nat)
    ensures forall i :: 0 <= i < n ==> Built(p, m, n, 0)[i] == Level(p, m)
    decreases n
  {
    if n > 0 {
      BuiltFlat(p, m, n - 1);
      assert Built(p, m, n, 0) == [Level(p, m)] + Built(p, m, n - 1, 0);
    }
  }

  lemma {:induction false} BuiltBelow(p: nat, m: nat, n: nat, gap: nat)
    requires p < m
    ensures AllBelow(Built(p, m, n, gap))
    decreases n
  {
    if n > 0 {
      BuiltBelow(p + gap, m + gap, n - 1, gap);
      AllBelowCons(Level(p, m), Built(p + gap, m + gap, n - 1, gap));
    }
  }

  lemma {:induction false} RunKeepsSpaced(ls: seq<Level>, j: nat, gap: nat)
    requires ls != [] && Spaced(ls, gap)
    ensures Spaced(Run(ls, j, gap), gap)
    decreases j
  {
    if j > 0 {
      RunKeepsSpaced(ls, j - 1, gap);
      NextKeepsSpaced(Run(ls, j - 1, gap), gap);
    }
  }

  // ---------------------------------------------------------------------
  // Counting

  lemma {:induction false} RunAdds(ls: seq<Level>, a: nat, b: nat, gap: nat)
    requires ls != []
    ensures Run(ls, a + b, gap) == Run(Run(ls, a, gap), b, gap)
    decreases b
  {
    if b > 0 {
      RunAdds(ls, a, b - 1, gap);
      calc {
        Run(ls, a + b, gap);
        Next(Run(ls, a + b - 1, gap), gap);
        Next(Run(Run(ls, a, gap), b - 1, gap), gap);
        Run(Run(ls, a, gap), b, gap);
      }
    }
  }

  lemma {:induction false} RewindBuilt(q: nat, p: nat, m: nat, n: nat, gap: nat)
    ensures Rewind(Built(q, m, n, gap), p, gap) == Built(p, m, n, gap)
    decreases n
  {
    if n > 0 {
      RewindBuilt(q + gap, p + gap, m + gap, n - 1, gap);
      assert Built(q, m, n, gap)[1..] == Built(q + gap, m + gap, n - 1, gap);
    }
  }

  lemma {:induction false} StepsPositive(d: nat, n: nat)
    requires d >= 1 && n >= 1
    ensures Steps(d, n) >= 1
    decreases n
  {
    if n > 1 {
      StepsPositive(d, n - 1);
    }
  }

  /** While the nested part of a freshly built nest runs through its own
      range, the outermost level stays where it was built. */
  lemma {:induction false} InnerPhase(p: nat, m: nat, n: nat, gap: nat, j: nat)
    requires n >= 2 && p < m && j < Steps(m - p, n - 1)
    ensures Run(Built(p, m, n, gap), j, gap) == [Level(p, m)] + Run(Built(p + gap, m + gap, n - 1, gap), j, gap)
    decreases n, m - p, 0, j
  {
    var sub := Built(p + gap, m + gap, n - 1, gap);
    if j == 0 {
      assert Built(p, m, n, gap) == [Level(p, m)] + sub;
    } else {
      var prev := Run(sub, j - 1, gap);
      assert Run(Built(p, m, n, gap), j - 1, gap) == [Level(p, m)] + prev by {
        InnerPhase(p, m, n, gap, j - 1);
      }
      assert Next(prev, gap) == Run(sub, j, gap);
      InnerNotExhausted(p, m, n, gap, j);
      NextKeepsOuter(Level(p, m), prev, gap);
      assert Run(Built(p, m, n, gap), j, gap) == Next([Level(p, m)] + prev, gap);
    }
  }

  /** Before its last advance, the nested part of a freshly built nest is not
      exhausted. */
  lemma InnerNotExhausted(p: nat, m: nat, n: nat, gap: nat, j: nat)
    requires n >= 2 && p < m && j < Steps(m - p, n - 1)
    ensures !Exhausted(Run(Built(p + gap, m + gap, n - 1, gap), j, gap))
    decreases n, 0, 0, 0
  {
    var sub := Built(p + gap, m + gap, n - 1, gap);
    RunBuilt(p + gap, m + gap, n - 1, gap);
    RunSameLasts(sub, j, gap);
  }

  /** While the nested part is not exhausted, an advance leaves the outer
      level alone. */
  lemma NextKeepsOuter(h: Level, t: seq<Level>, gap: nat)
    requires t != [] && !Exhausted(Next(t, gap))
    ensures Next([h] + t, gap) == [h] + Next(t, gap)
  {
    assert ([h] + t)[1..] == t;
  }

  /** The advance on which the nested part of a freshly built nest becomes
      exhausted bumps the outermost level and rewinds the nested part: the
      result is the nest built one position further on. */
  lemma {:induction false} CarryPhase(p: nat, m: nat, n: nat, gap: nat)
    requires n >= 2 && p < m
    ensures Run(Built(p, m, n, gap), Steps(m - p, n - 1), gap) == Built(p + 1, m, n, gap)
    decreases n, m - p, 0, Steps(m - p, n - 1)
  {
    var b := Built(p, m, n, gap);
    var sub := Built(p + gap, m + gap, n - 1, gap);
    var a := Steps(m - p, n - 1);
    StepsPositive(m - p, n - 1);
    var prev := Run(sub, a - 1, gap);
    assert Run(b, a - 1, gap) == [Level(p, m)] + prev by {
      InnerPhase(p, m, n, gap, a - 1);
    }
    InnerReachesEnd(p, m, n, gap);
    CarryLast(p, m, n, gap, a, prev);
  }

  /** The nested part of a freshly built nest reaches its all-last nest on
      its last advance. */
  lemma InnerReachesEnd(p: nat, m: nat, n: nat, gap: nat)
    requires n >= 2 && p < m
    ensures Steps(m - p, n - 1) >= 1
    ensures Next(Run(Built(p + gap, m + gap, n - 1, gap), Steps(m - p, n - 1) - 1, gap), gap)
      == Built(m + gap, m + gap, n - 1, gap)
    decreases n, 0, 0, 0
  {
    StepsPositive(m - p, n - 1);
    RunBuilt(p + gap, m + gap, n - 1, gap);
    assert (m + gap) - (p + gap) == m - p;
  }

  lemma CarryLast(p: nat, m: nat, n: nat, gap: nat, a: nat, prev: seq<Level>)
    requires n >= 2 && a >= 1 && prev != []
    requires Run(Built(p, m, n, gap), a - 1, gap) == [Level(p, m)] + prev
    requires Next(prev, gap) == Built(m + gap, m + gap, n - 1, gap)
    ensures Run(Built(p, m, n, gap), a, gap) == Built(p + 1, m, n, gap)
  {
    CarryOnto(p, m, n, gap, prev);
  }

  lemma CarryOnto(p: nat, m: nat, n: nat, gap: nat, prev: seq<Level>)
    requires n >= 2 && prev != [] && Next(prev, gap) == Built(m + gap, m + gap, n - 1, gap)
    ensures Next([Level(p, m)] + prev, gap) == Built(p + 1, m, n, gap)
  {
    var x := [Level(p, m)] + prev;
    var done := Built(m + gap, m + gap, n - 1, gap);
    assert x[1..] == prev;
    assert Exhausted(done);
    RewindBuilt(m + gap, p + 1 + gap, m + gap, n - 1, gap);
    assert Built(p + 1, m, n, gap) == [Level(p + 1, m)] + Built(p + 1 + gap, m + gap, n - 1, gap);
  }

  /** Counting: a nest of `n` levels built over `(p, m)` reaches the nest
      built over `(m, m)` after exactly `Steps(m - p, n)` advances, and every
      state before that has its outermost cursor below `m`. */
  lemma {:induction false} RunBuilt(p: nat, m: nat, n: nat, gap: nat)
    requires n >= 1 && p <= m
    ensures Run(Built(p, m, n, gap), Steps(m - p, n), gap) == Built(m, m, n, gap)
    ensures forall j :: 0 <= j < Steps(m - p, n) ==> Run(Built(p, m, n, gap), j, gap)[0].it < m
    decreases n, m - p, 1, 0
  {
    var b := Built(p, m, n, gap);
    if p == m {
    } else if n == 1 {
      assert b == [Level(p, m)] && Built(m, m, n, gap) == [Level(m, m)];
      RunSingle(p, m, gap);
    } else {
      var a := Steps(m - p, n - 1);
      var rest := Steps(m - (p + 1), n);
      assert Steps(m - p, n) == a + rest;
      assert Run(b, a, gap) == Built(p + 1, m, n, gap) by {
        CarryPhase(p, m, n, gap);
      }
      var c := Built(p + 1, m, n, gap);
      assert Run(c, rest, gap) == Built(m, m, n, gap)
        && forall j :: 0 <= j < rest ==> Run(c, j, gap)[0].it < m by {
        RunBuilt(p + 1, m, n, gap);
      }
      assert Run(b, a + rest, gap) == Built(m, m, n, gap) by {
        RunAdds(b, a, rest, gap);
      }
      OuterBelow(p, m, n, gap, a, c, rest);
    }
  }

  /** Before the carry the outermost cursor stays at `p`; after it, the run
      from the nest built one position further on keeps it below `m`. */
  lemma OuterBelow(p: nat, m: nat, n: nat, gap: nat, a: nat, c: seq<Level>, rest: nat)
    requires n >= 2 && p < m && a == Steps(m - p, n - 1)
    requires c != [] && Run(Built(p, m, n, gap), a, gap) == c
    requires forall j :: 0 <= j < rest ==> Run(c, j, gap)[0].it < m
    ensures forall j :: 0 <= j < a + rest ==> Run(Built(p, m, n, gap), j, gap)[0].it < m
    decreases n, m - p, 0, a
  {
    var b := Built(p, m, n, gap);
    forall j | 0 <= j < a + rest
      ensures Run(b, j, gap)[0].it < m
    {
      if j < a {
        InnerPhase(p, m, n, gap, j);
      } else {
        RunAdds(b, a, j - a, gap);
      }
    }
  }

  lemma {:induction false} RunSingle(p: nat, m: nat, gap: nat)
    requires p <= m
    ensures forall j :: 0 <= j <= m - p ==> Run([Level(p, m)], j, gap) == [Level(p + j, m)]
  {
    forall j | 0 <= j <= m - p
      ensures Run([Level(p, m)], j, gap) == [Level(p + j, m)]
    {
      RunSingleAt(p, m, j, gap);
    }
  }

  lemma {:induction false} RunSingleAt(p: nat, m: nat, j: nat, gap: nat)
    ensures Run([Level(p, m)], j, gap) == [Level(p + j, m)]
    decreases j
  {
    if j > 0 {
      RunSingleAt(p, m, j - 1, gap);
    }
  }

  lemma {:induction false} ChooseBelow(a: nat, b: nat)
    requires a < b
    ensures Choose(a, b) == 0
    decreases a
  {
    if a > 0 {
      ChooseBelow(a - 1, b - 1);
      ChooseBelow(a - 1, b);
    }
  }

  lemma {:induction false} ChooseOne(a: nat)
    ensures Choose(a, 1) == a
    decreases a
  {
    if a > 0 {
      ChooseOne(a - 1);
    }
  }

  /** The step count is a binomial coefficient. */
  lemma {:induction false} StepsIsChoose(d: nat, n: nat)
    requires n >= 1
    ensures Steps(d, n) == Choose(d + n - 1, n)
    decreases n, d
  {
    if d == 0 {
      ChooseBelow(n - 1, n);
    } else if n == 1 {
      ChooseOne(d);
    } else {
      StepsIsChoose(d, n - 1);
      StepsIsChoose(d - 1, n);
    }
  }

  // ---------------------------------------------------------------------
  // One level of a nest updated in place

  /** The nest from level k on, with level k moved to `x` and the levels after
      it replaced by `rest`. */
  lemma MoveThenReplace(ls: seq<Level>, k: nat, x: nat, rest: seq<Level>, ls': seq<Level>)
    requires k < |ls| && |rest| == |ls| - k - 1
    requires ls' == ls[k := Level(x, ls[k].last)][..k + 1] + rest
    ensures ls' == ls[..k] + ([Level(x, ls[k].last)] + rest)
  {
    var h := Level(x, ls[k].last);
    assert ls[k := h][..k + 1] == ls[..k] + [h];
  }

  /** `rewind(p)` unfolds one level at a time over a nest held from level k. */
  lemma RewindAt(ls: seq<Level>, k: nat, p: nat, gap: nat)
    requires k < |ls|
    ensures Rewind(ls[k..], p, gap) == [Level(p, ls[k].last)] + Rewind(ls[k + 1..], p + gap, gap)
  {
    assert ls[k..][1..] == ls[k + 1..];
  }

  /** `operator++` unfolds one level at a time over a nest held from level k. */
  lemma NextAt(ls: seq<Level>, k: nat, gap: nat)
    requires k + 1 < |ls|
    ensures var sub := Next(ls[k + 1..], gap);
      Next(ls[k..], gap) ==
        if Exhausted(sub) then [Level(ls[k].it + 1, ls[k].last)] + Rewind(sub, ls[k].it + 1 + gap, gap)
        else [ls[k]] + sub
  {
    assert ls[k..][1..] == ls[k + 1..];
  }

  /** Every state a built nest passes through before its end is
      dereferenceable, spaced, keeps the lasts it was built with, and is
      lexicographically above the state before it. */
  lemma RunBeforeEnd(p: nat, m: nat, n: nat, gap: nat, j: nat)
    requires n >= 1 && p < m && j < Steps(m - p, n)
    ensures var r := Run(Built(p, m, n, gap), j, gap);
      AllBelow(r) && Spaced(r, gap) && SameLasts(r, Built(p, m, n, gap))
    ensures j > 0 ==> LexLess(Cursors(Run(Built(p, m, n, gap), j - 1, gap)), Cursors(Run(Built(p, m, n, gap), j, gap)))
  {
    var b := Built(p, m, n, gap);
    BuiltShifted(p, m, n, gap);
    RunKeepsSpaced(b, j, gap);
    RunSameLasts(b, j, gap);
    RunBelow(p, m, n, gap, j);
    if j > 0 {
      NextIsLexGreater(Run(b, j - 1, gap), gap);
    }
  }

  /** Every state a built nest passes through before its end is
      dereferenceable. */
  lemma {:induction false} RunBelow(p: nat, m: nat, n: nat, gap: nat, j: nat)
    requires n >= 1 && p < m && j < Steps(m - p, n)
    ensures AllBelow(Run(Built(p, m, n, gap), j, gap))
    decreases j
  {
    if j == 0 {
      BuiltShifted(p, m, n, gap);
    } else {
      RunBelow(p, m, n, gap, j - 1);
      RunBelowStep(p, m, n, gap, j);
    }
  }

  lemma RunBelowStep(p: nat, m: nat, n: nat, gap: nat, j: nat)
    requires n >= 1 && p < m && 0 < j < Steps(m - p, n)
    requires AllBelow(Run(Built(p, m, n, gap), j - 1, gap))
    ensures AllBelow(Run(Built(p, m, n, gap), j, gap))
  {
    var b := Built(p, m, n, gap);
    var prev := Run(b, j - 1, gap);
    assert Next(prev, gap)[0].it < m by {
      RunBuilt(p, m, n, gap);
      assert Run(b, j, gap) == Next(prev, gap);
    }
    BuiltShifted(p, m, n, gap);
    RunSameLasts(b, j - 1, gap);
    StaysBelow(prev, b, gap, m);
  }

  /** An advance from a dereferenceable state whose outermost cursor stays
      below its last leaves every level dereferenceable. */
  lemma StaysBelow(prev: seq<Level>, b: seq<Level>, gap: nat, m: nat)
    requires prev != [] && AllBelow(prev) && SameLasts(prev, b) && LastsShifted(b, gap)
    requires b[0].last == m && Next(prev, gap)[0].it < m
    ensures AllBelow(Next(prev, gap))
  {
    LastsShiftedSame(prev, b, gap);
    NextStaysInBounds(prev, gap);
    NextSameLasts(prev, gap);
  }
}
